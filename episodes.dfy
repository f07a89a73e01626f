/**
 * The episode list both providers build in `load`: episodes carry an
 * optional number, are sorted with Kotlin's stable `sortBy { it.episode }`
 * and then deduplicated with `distinctBy { it.data }`.  Also the small
 * regular expressions that read an episode number out of a link or title.
 */
module Episodes {
  import opened Options
  import opened Text

  /** `newEpisode(data) { name = …; episode = … }`. */
  datatype Episode = Episode(data: string, name: string, episode: Option<int>)

  /** An anchor of the page: its `href`, its text and (Eishq) the text of a nested `span`/`div`. */
  datatype Anchor = Anchor(href: string, text: string, nested: Option<string>)

  // ---- Ordering ---------------------------------------------------------

  /** Kotlin's `compareValues` on `Int?`: null is smaller than every number. */
  predicate NumberLe(a: Option<int>, b: Option<int>) {
    a.None? || (b.Some? && a.value <= b.value)
  }

  ghost predicate SortedByNumber(s: seq<Episode>) {
    forall i, j :: 0 <= i < j < |s| ==> NumberLe(s[i].episode, s[j].episode)
  }

  /** The episodes of `s` whose number is `n`, in their order in `s`. */
  function WithNumber(s: seq<Episode>, n: Option<int>): (r: seq<Episode>)
    ensures |r| <= |s|
  {
    if s == [] then []
    else (if s[0].episode == n then [s[0]] else []) + WithNumber(s[1..], n)
  }

  /** Places `e` before the first element whose number is not smaller. */
  function Insert(e: Episode, s: seq<Episode>): (r: seq<Episode>)
  {
    if s == [] then [e]
    else if NumberLe(e.episode, s[0].episode) then [e] + s
    else [s[0]] + Insert(e, s[1..])
  }

  /** `sortBy { it.episode }`: a stable sort by number with nulls first. */
  function SortByNumber(s: seq<Episode>): (r: seq<Episode>)
  {
    if s == [] then [] else Insert(s[0], SortByNumber(s[1..]))
  }

  lemma {:induction false} InsertMultiset(e: Episode, s: seq<Episode>)
    ensures multiset(Insert(e, s)) == multiset(s) + multiset{e}
    decreases |s|
  {
    if s != [] && !NumberLe(e.episode, s[0].episode) {
      InsertMultiset(e, s[1..]);
      assert s == [s[0]] + s[1..];
    }
  }

  lemma {:induction false} InsertSorted(e: Episode, s: seq<Episode>)
    requires SortedByNumber(s)
    ensures SortedByNumber(Insert(e, s))
    ensures Insert(e, s)[0] == e || Insert(e, s)[0] == s[0]
    decreases |s|
  {
    if s != [] && !NumberLe(e.episode, s[0].episode) {
      var t := Insert(e, s[1..]);
      var r := [s[0]] + t;
      assert SortedByNumber(s[1..]) by {
        forall i, j | 0 <= i < j < |s[1..]| ensures NumberLe(s[1..][i].episode, s[1..][j].episode) {
          assert s[1..][i] == s[i + 1] && s[1..][j] == s[j + 1];
        }
      }
      InsertSorted(e, s[1..]);
      assert NumberLe(s[0].episode, t[0].episode);
      forall i, j | 0 <= i < j < |r| ensures NumberLe(r[i].episode, r[j].episode) {
        if i == 0 {
          assert r[j] == t[j - 1];
          if j > 1 {
            assert NumberLe(t[0].episode, t[j - 1].episode);
          }
        } else {
          assert r[i] == t[i - 1] && r[j] == t[j - 1];
        }
      }
    } else if s != [] {
      forall i, j | 0 <= i < j < |[e] + s| ensures NumberLe(([e] + s)[i].episode, ([e] + s)[j].episode) {
        if i == 0 && j > 1 {
          assert NumberLe(s[0].episode, s[j - 1].episode);
        }
      }
    }
  }

  lemma {:induction false} InsertWithNumber(e: Episode, s: seq<Episode>, n: Option<int>)
    requires SortedByNumber(s)
    ensures WithNumber(Insert(e, s), n) == WithNumber([e] + s, n)
    decreases |s|
  {
    if s != [] && !NumberLe(e.episode, s[0].episode) {
      var t := Insert(e, s[1..]);
      assert SortedByNumber(s[1..]) by {
        forall i, j | 0 <= i < j < |s[1..]| ensures NumberLe(s[1..][i].episode, s[1..][j].episode) {
          assert s[1..][i] == s[i + 1] && s[1..][j] == s[j + 1];
        }
      }
      InsertWithNumber(e, s[1..], n);
      assert ([s[0]] + t)[1..] == t;
      assert ([e] + s[1..])[1..] == s[1..];
      assert ([e] + s)[1..] == s;
      assert ([s[0]] + ([e] + s[1..]))[1..] == [e] + s[1..];
      if e.episode == n {
        // s[0] has a strictly smaller number than e, so it has another number
        assert s[0].episode != n;
      }
    }
  }

  /**
   * The sort gives a list ordered by number (nulls first) that is a
   * permutation of its input and, for every number, lists the episodes with
   * that number in their original order: it is stable.
   */
  lemma {:induction false} SortByNumberCorrect(s: seq<Episode>)
    ensures SortedByNumber(SortByNumber(s))
    ensures multiset(SortByNumber(s)) == multiset(s)
    ensures forall n :: WithNumber(SortByNumber(s), n) == WithNumber(s, n)
  {
    if s != [] {
      var t := SortByNumber(s[1..]);
      SortByNumberCorrect(s[1..]);
      InsertSorted(s[0], t);
      InsertMultiset(s[0], t);
      assert s == [s[0]] + s[1..];
      forall n ensures WithNumber(SortByNumber(s), n) == WithNumber(s, n) {
        InsertWithNumber(s[0], t, n);
        assert ([s[0]] + t)[1..] == t;
      }
    }
  }

  // ---- distinctBy -------------------------------------------------------

  /** `distinctBy { it.data }` continued with the keys in `seen` already taken. */
  function DistinctFrom(s: seq<Episode>, seen: set<string>): (r: seq<Episode>)
  {
    if s == [] then []
    else if s[0].data in seen then DistinctFrom(s[1..], seen)
    else [s[0]] + DistinctFrom(s[1..], seen + {s[0].data})
  }

  /** `distinctBy { it.data }`. */
  function DistinctByData(s: seq<Episode>): (r: seq<Episode>)
  {
    DistinctFrom(s, {})
  }

  ghost predicate UniqueData(s: seq<Episode>) {
    forall i, j :: 0 <= i < j < |s| ==> s[i].data != s[j].data
  }

  /** `s[j]` is the first element of `s` with its `data`. */
  ghost predicate FirstOfItsData(s: seq<Episode>, j: nat) {
    j < |s| && forall k :: 0 <= k < j ==> s[k].data != s[j].data
  }

  /** `distinctBy` only keeps elements of its input whose `data` was not seen before. */
  lemma {:induction false} DistinctMembers(s: seq<Episode>, seen: set<string>)
    ensures forall e :: e in DistinctFrom(s, seen) ==> e in s && e.data !in seen
    decreases |s|
  {
    if s != [] {
      var seen' := if s[0].data in seen then seen else seen + {s[0].data};
      DistinctMembers(s[1..], seen');
      forall e | e in DistinctFrom(s, seen) ensures e in s && e.data !in seen {
        if e != s[0] || s[0].data in seen {
          assert e in DistinctFrom(s[1..], seen');
          assert e in s[1..];
        }
      }
    }
  }

  /** No two elements `distinctBy` keeps share `data`. */
  lemma {:induction false} DistinctUnique(s: seq<Episode>, seen: set<string>)
    ensures UniqueData(DistinctFrom(s, seen))
    decreases |s|
  {
    if s != [] && s[0].data in seen {
      DistinctUnique(s[1..], seen);
    } else if s != [] {
      var seen' := seen + {s[0].data};
      var rest := DistinctFrom(s[1..], seen');
      DistinctUnique(s[1..], seen');
      DistinctMembers(s[1..], seen');
      var r := [s[0]] + rest;
      forall i, j | 0 <= i < j < |r| ensures r[i].data != r[j].data {
        if i == 0 {
          assert r[j] in rest;
        } else {
          assert r[i] == rest[i - 1] && r[j] == rest[j - 1];
        }
      }
    }
  }

  /** Every `data` of the input not seen before has an element in the result. */
  lemma {:induction false} DistinctSurvives(s: seq<Episode>, seen: set<string>)
    ensures forall e :: e in s && e.data !in seen ==> exists e' :: e' in DistinctFrom(s, seen) && e'.data == e.data
    decreases |s|
  {
    if s != [] {
      var seen' := if s[0].data in seen then seen else seen + {s[0].data};
      DistinctSurvives(s[1..], seen');
      var r := DistinctFrom(s, seen);
      forall e | e in s && e.data !in seen ensures exists e' :: e' in r && e'.data == e.data {
        if e.data == s[0].data {
          assert r[0] in r;
        } else {
          assert s == [s[0]] + s[1..];
          assert e in s[1..];
          var e' :| e' in DistinctFrom(s[1..], seen') && e'.data == e.data;
          assert e' in r;
        }
      }
    }
  }

  /** Deduplicating a list ordered by number keeps it ordered. */
  lemma {:induction false} DistinctSorted(s: seq<Episode>, seen: set<string>)
    requires SortedByNumber(s)
    ensures SortedByNumber(DistinctFrom(s, seen))
    decreases |s|
  {
    if s != [] {
      var seen' := if s[0].data in seen then seen else seen + {s[0].data};
      assert SortedByNumber(s[1..]) by {
        forall i, j | 0 <= i < j < |s[1..]| ensures NumberLe(s[1..][i].episode, s[1..][j].episode) {
          assert s[1..][i] == s[i + 1] && s[1..][j] == s[j + 1];
        }
      }
      DistinctSorted(s[1..], seen');
      if s[0].data !in seen {
        var rest := DistinctFrom(s[1..], seen');
        DistinctMembers(s[1..], seen');
        var r := [s[0]] + rest;
        forall i, j | 0 <= i < j < |r| ensures NumberLe(r[i].episode, r[j].episode) {
          if i == 0 {
            assert r[j] in rest;
            var k :| 0 <= k < |s[1..]| && s[1..][k] == r[j];
            assert s[k + 1] == r[j];
          } else {
            assert r[i] == rest[i - 1] && r[j] == rest[j - 1];
          }
        }
      }
    }
  }

  /**
   * `r` lists elements `s[idx[0]]`, `s[idx[1]]`, … at increasing indices,
   * each the first element of its `data` in `s`.
   */
  ghost predicate FirstsInOrder(r: seq<Episode>, s: seq<Episode>, idx: seq<nat>) {
    && |idx| == |r|
    && (forall i :: 0 <= i < |idx| ==> FirstOfItsData(s, idx[i]) && r[i] == s[idx[i]])
    && (forall i, j :: 0 <= i < j < |idx| ==> idx[i] < idx[j])
  }

  /** Firsts of the tail whose `data` differs from the head are firsts of the whole list. */
  lemma ShiftFirsts(s: seq<Episode>, r: seq<Episode>, idx: seq<nat>) returns (shifted: seq<nat>)
    requires s != [] && FirstsInOrder(r, s[1..], idx)
    requires forall e :: e in r ==> e.data != s[0].data
    ensures FirstsInOrder(r, s, shifted)
    ensures forall k :: 0 <= k < |shifted| ==> shifted[k] > 0
  {
    shifted := seq(|idx|, k requires 0 <= k < |idx| => idx[k] + 1);
    forall k | 0 <= k < |shifted| ensures FirstOfItsData(s, shifted[k]) && r[k] == s[shifted[k]] {
      var j := idx[k];
      assert r[k] == s[1..][j] == s[j + 1];
      assert r[k] in r;
      forall t | 0 < t < j + 1 ensures s[t].data != s[j + 1].data {
        assert s[t] == s[1..][t - 1];
      }
    }
  }

  /** `distinctBy` keeps the first occurrence of each `data`, in the input's order. */
  lemma {:induction false} DistinctKeepsFirst(s: seq<Episode>, seen: set<string>) returns (idx: seq<nat>)
    ensures FirstsInOrder(DistinctFrom(s, seen), s, idx)
    decreases |s|
  {
    if s == [] {
      return [];
    }
    var seen' := if s[0].data in seen then seen else seen + {s[0].data};
    var rest := DistinctFrom(s[1..], seen');
    DistinctMembers(s[1..], seen');
    var idx' := DistinctKeepsFirst(s[1..], seen');
    var shifted := ShiftFirsts(s, rest, idx');
    if s[0].data in seen {
      idx := shifted;
    } else {
      idx := [0] + shifted;
      ConsFirsts(s, rest, shifted);
    }
  }

  /** The head of `s`, put before firsts found after it, is a first too. */
  lemma ConsFirsts(s: seq<Episode>, r: seq<Episode>, idx: seq<nat>)
    requires s != [] && FirstsInOrder(r, s, idx)
    requires forall k :: 0 <= k < |idx| ==> idx[k] > 0
    ensures FirstsInOrder([s[0]] + r, s, [0] + idx)
  {
    var r' := [s[0]] + r;
    var idx' := [0] + idx;
    forall i | 0 < i < |idx'| ensures FirstOfItsData(s, idx'[i]) && r'[i] == s[idx'[i]] {
      assert idx'[i] == idx[i - 1] && r'[i] == r[i - 1];
    }
  }

  /**
   * Sorting then deduplicating: the result has unique `data`, is ordered by
   * number with nulls first, keeps every `data` of the collected list, only
   * holds collected episodes, and lists, in order, the first episode of each
   * `data` in the stably sorted list.
   */
  lemma SortThenDistinct(s: seq<Episode>)
    ensures var r := DistinctByData(SortByNumber(s));
      && UniqueData(r)
      && SortedByNumber(r)
      && (forall e :: e in r ==> e in s)
      && (forall e :: e in s ==> exists e' :: e' in r && e'.data == e.data)
      && (exists idx :: FirstsInOrder(r, SortByNumber(s), idx))
  {
    var t := SortByNumber(s);
    SortByNumberCorrect(s);
    DistinctUnique(t, {});
    DistinctSorted(t, {});
    SortThenDistinctMembers(s);
    SortThenDistinctSurvives(s);
    var idx := DistinctKeepsFirst(t, {});
  }

  /** Sorting then deduplicating keeps only input episodes. */
  lemma SortThenDistinctMembers(s: seq<Episode>)
    ensures forall e :: e in DistinctByData(SortByNumber(s)) ==> e in s
  {
    var t := SortByNumber(s);
    SortByNumberCorrect(s);
    DistinctMembers(t, {});
    forall e | e in DistinctByData(t) ensures e in s {
      assert e in multiset(t);
    }
  }

  /** Sorting then deduplicating keeps an episode for each `data` of the input. */
  lemma SortThenDistinctSurvives(s: seq<Episode>)
    ensures forall e :: e in s ==> exists e' :: e' in DistinctByData(SortByNumber(s)) && e'.data == e.data
  {
    var t := SortByNumber(s);
    SortByNumberCorrect(s);
    DistinctSurvives(t, {});
    forall e | e in s ensures e in t {
      assert e in multiset(s);
    }
  }

  /** Sorting then deduplicating leaves nothing exactly when there was nothing. */
  lemma SortThenDistinctEmpty(s: seq<Episode>)
    ensures DistinctByData(SortByNumber(s)) == [] <==> s == []
  {
    var t := SortByNumber(s);
    SortByNumberCorrect(s);
    if s != [] {
      assert s[0] in multiset(t);
      assert DistinctByData(t)[0] == t[0];
    }
  }

  // ---- Collecting -------------------------------------------------------

  /** `anchors.forEach { … episodes.add(…) }`: the episodes `f` makes of the anchors, in order. */
  function Keep(anchors: seq<Anchor>, f: Anchor -> Option<Episode>): seq<Episode>
    decreases |anchors|
  {
    if anchors == [] then []
    else Keep(anchors[..|anchors| - 1], f) + (match f(anchors[|anchors| - 1]) case Some(e) => [e] case None => [])
  }

  /** An episode is collected exactly when some anchor makes it; nothing is collected when no anchor makes one. */
  lemma {:induction false} KeepSpec(anchors: seq<Anchor>, f: Anchor -> Option<Episode>)
    ensures forall e :: e in Keep(anchors, f) <==> exists k :: 0 <= k < |anchors| && f(anchors[k]) == Some(e)
    ensures Keep(anchors, f) == [] <==> forall k :: 0 <= k < |anchors| ==> f(anchors[k]).None?
    decreases |anchors|
  {
    if anchors != [] {
      var init := anchors[..|anchors| - 1];
      KeepSpec(init, f);
      forall k | 0 <= k < |init| ensures anchors[k] == init[k] { }
    }
  }

  /** Collecting one more anchor appends what it makes. */
  lemma KeepPrefixStep(anchors: seq<Anchor>, i: nat, f: Anchor -> Option<Episode>)
    requires i < |anchors|
    ensures Keep(anchors[..i + 1], f) == Keep(anchors[..i], f) + (match f(anchors[i]) case Some(e) => [e] case None => [])
  {
    assert anchors[..i + 1][..i] == anchors[..i];
  }

  /** When every anchor makes an episode, the list has one per anchor, in anchor order. */
  lemma {:induction false} KeepTotal(anchors: seq<Anchor>, f: Anchor -> Option<Episode>)
    requires forall k :: 0 <= k < |anchors| ==> f(anchors[k]).Some?
    ensures |Keep(anchors, f)| == |anchors|
    ensures forall k :: 0 <= k < |anchors| ==> Keep(anchors, f)[k] == f(anchors[k]).value
    decreases |anchors|
  {
    if anchors != [] {
      var init := anchors[..|anchors| - 1];
      forall k | 0 <= k < |init| ensures anchors[k] == init[k] { }
      KeepTotal(init, f);
    }
  }

  // ---- Episode numbers --------------------------------------------------

  /**
   * One alternative of an episode-number pattern:
   * `After(k, true)` is `k\s*(\d+)`, `After(k, false)` is `k(\d+)`,
   * `Before(k)` is `(\d+)\s*k` and `Digits` is `(\d+)`.
   */
  datatype Alt = After(key: string, spaced: bool) | Before(key: string) | Digits

  function DigitRunEnd(s: string, j: nat): (e: nat)
    requires j <= |s|
    ensures j <= e <= |s| && AllDigits(s[j..e])
    ensures e < |s| ==> !IsDigit(s[e])
  {
    var e := SkipWhile(s, j, IsDigit);
    assert forall k :: 0 <= k < e - j ==> s[j..e][k] == s[j + k];
    e
  }

  /**
   * The group an alternative captures when matched from `i`.  Greedy `\d+`
   * and `\s*` leave no choice here: each key starts with a letter, so giving
   * back a digit or a space can never let the key match.
   */
  function AltAt(alt: Alt, s: string, i: nat): (r: Option<string>)
    requires i <= |s|
    ensures r.Some? ==> |r.value| > 0 && AllDigits(r.value)
  {
    match alt
    case After(key, spaced) =>
      if OccursAt(s, key, i) then
        var j := if spaced then SkipWhile(s, i + |key|, IsRegexSpace) else i + |key|;
        var e := DigitRunEnd(s, j);
        if e > j then Some(s[j..e]) else None
      else None
    case Before(key) =>
      var e := DigitRunEnd(s, i);
      if e > i && OccursAt(s, key, SkipWhile(s, e, IsRegexSpace)) then Some(s[i..e]) else None
    case Digits =>
      var e := DigitRunEnd(s, i);
      if e > i then Some(s[i..e]) else None
  }

  /** The alternatives tried in order at one position. */
  function AltsAt(alts: seq<Alt>, s: string, i: nat): (r: Option<string>)
    requires i <= |s|
    ensures r.Some? ==> |r.value| > 0 && AllDigits(r.value)
  {
    if alts == [] then None
    else match AltAt(alts[0], s, i)
      case Some(g) => Some(g)
      case None => AltsAt(alts[1..], s, i)
  }

  /**
   * `Regex(alts).find(s)` followed by `groupValues.drop(1).firstOrNull { it.isNotBlank() }`:
   * only the group of the alternative that matched is non-empty, so this is that group.
   */
  function FindDigits(alts: seq<Alt>, s: string, from: nat): (r: Option<string>)
    requires from <= |s|
    ensures r.Some? ==> |r.value| > 0 && AllDigits(r.value)
    decreases |s| - from
  {
    match AltsAt(alts, s, from)
    case Some(g) => Some(g)
    case None => if from < |s| then FindDigits(alts, s, from + 1) else None
  }

  /** `…?.toIntOrNull()` of the digits found. */
  function ParseNumber(alts: seq<Alt>, s: string): (r: Option<int>)
    ensures r.Some? ==> 0 <= r.value <= MaxInt
  {
    match FindDigits(alts, s, 0)
    case Some(g) => ToIntOrNull(g)
    case None => None
  }

  // ---- What the patterns match -------------------------------------------

  /** `s[a..b]` is a run of `\s`. */
  ghost predicate Spaces(s: string, a: nat, b: nat) {
    a <= b <= |s| && forall t :: a <= t < b ==> IsRegexSpace(s[t])
  }

  /** `g` is the whole run of digits starting at `j`, as greedy `(\d+)` takes it. */
  ghost predicate DigitRunAt(s: string, j: nat, g: string) {
    0 < |g| && j + |g| <= |s| && s[j..j + |g|] == g && AllDigits(g) && (j + |g| < |s| ==> !IsDigit(s[j + |g|]))
  }

  /** `\s*(\d+)` from `a` captures `g`. */
  ghost predicate SpacedDigits(s: string, a: nat, g: string) {
    exists j: nat :: Spaces(s, a, j) && DigitRunAt(s, j, g)
  }

  /**
   * Where an alternative matches and what it captures, read off its
   * regular expression: `k\s*(\d+)` is the key, any spaces, then the digits;
   * `k(\d+)` is the key, then the digits; `(\d+)\s*k` is the digits, any
   * spaces, then the key; `(\d+)` is the digits.
   */
  ghost predicate AltCapture(alt: Alt, s: string, i: nat, g: string) {
    match alt
    case After(k, spaced) =>
      && OccursAt(s, k, i)
      && if spaced then SpacedDigits(s, i + |k|, g) else DigitRunAt(s, i + |k|, g)
    case Before(k) => DigitRunAt(s, i, g) && exists p: nat :: Spaces(s, i + |g|, p) && OccursAt(s, k, p)
    case Digits => DigitRunAt(s, i, g)
  }

  ghost predicate NoCapture(alt: Alt, s: string, i: nat) {
    forall g :: !AltCapture(alt, s, i, g)
  }

  /**
   * `k` starts with neither a digit nor a space, so the digit and space runs
   * next to it cannot give characters back to it: a shorter run never
   * lets the pattern match where the whole run does not.
   */
  predicate PlainKey(alt: Alt) {
    alt.Digits? || (|alt.key| > 0 && !IsDigit(alt.key[0]) && !IsRegexSpace(alt.key[0]))
  }

  predicate AllPlain(alts: seq<Alt>) {
    forall k :: 0 <= k < |alts| ==> PlainKey(alts[k])
  }

  /** The alternatives `alts`, tried in order at `i`, capture `g`: the first that matches there does. */
  ghost predicate PatternAt(alts: seq<Alt>, s: string, i: nat, g: string) {
    exists m :: 0 <= m < |alts| && AltCapture(alts[m], s, i, g) && forall n :: 0 <= n < m ==> NoCapture(alts[n], s, i)
  }

  /** Some alternative of `alts` matches at `i`. */
  ghost predicate MatchesAt(alts: seq<Alt>, s: string, i: nat) {
    exists m, g :: 0 <= m < |alts| && AltCapture(alts[m], s, i, g)
  }

  /** `find` from `from` captures `g`: at the leftmost position where the pattern matches. */
  ghost predicate FirstMatch(alts: seq<Alt>, s: string, from: nat, g: string) {
    exists i :: from <= i <= |s| && PatternAt(alts, s, i, g) && forall j :: from <= j < i ==> !MatchesAt(alts, s, j)
  }

  /** The digit run at `j` is what `DigitRunEnd` delimits. */
  lemma DigitRunAtIff(s: string, j: nat, g: string)
    requires j <= |s|
    ensures DigitRunAt(s, j, g) <==> DigitRunEnd(s, j) > j && g == s[j..DigitRunEnd(s, j)]
  {
    if DigitRunAt(s, j, g) {
      forall t | j <= t < j + |g| ensures IsDigit(s[t]) {
        assert s[t] == s[j..j + |g|][t - j];
      }
      SkipWhileUnique(s, j, IsDigit, j + |g|);
    }
  }

  /** A run of spaces from `a` ends at or before the end of the longest one. */
  lemma SpacesBound(s: string, a: nat, j: nat)
    requires a <= |s| && Spaces(s, a, j)
    ensures j <= SkipWhile(s, a, IsRegexSpace)
    ensures j < SkipWhile(s, a, IsRegexSpace) ==> IsRegexSpace(s[j])
  {
  }

  /** Spaces from `a` followed by a digit run at `j` end where the longest run of spaces does. */
  lemma SpacesThenDigits(s: string, a: nat, j: nat, g: string)
    requires a <= |s| && Spaces(s, a, j) && DigitRunAt(s, j, g)
    ensures j == SkipWhile(s, a, IsRegexSpace)
  {
    SpacesBound(s, a, j);
    assert s[j] == s[j..j + |g|][0] == g[0];
  }

  /** `\s*(\d+)` from `a` captures exactly the digit run after the longest run of spaces. */
  lemma SpacedDigitsIff(s: string, a: nat, g: string)
    requires a <= |s|
    ensures var j0 := SkipWhile(s, a, IsRegexSpace);
      SpacedDigits(s, a, g) <==> DigitRunEnd(s, j0) > j0 && g == s[j0..DigitRunEnd(s, j0)]
  {
    var j0 := SkipWhile(s, a, IsRegexSpace);
    DigitRunAtIff(s, j0, g);
    if SpacedDigits(s, a, g) {
      var j: nat :| Spaces(s, a, j) && DigitRunAt(s, j, g);
      SpacesThenDigits(s, a, j, g);
    } else {
      assert Spaces(s, a, j0);
    }
  }

  /** `k\s*(\d+)`: after the key, the spaces run to the digits. */
  lemma AfterSpacedCorrect(k: string, s: string, i: nat, g: string)
    requires i <= |s|
    ensures AltAt(After(k, true), s, i) == Some(g) <==> AltCapture(After(k, true), s, i, g)
  {
    if OccursAt(s, k, i) {
      SpacedDigitsIff(s, i + |k|, g);
    }
  }

  /** `(\d+)\s*k`: after the digits, the spaces run to the key. */
  lemma BeforeCorrect(k: string, s: string, i: nat, g: string)
    requires i <= |s| && PlainKey(Before(k))
    ensures AltAt(Before(k), s, i) == Some(g) <==> AltCapture(Before(k), s, i, g)
  {
    DigitRunAtIff(s, i, g);
    if AltCapture(Before(k), s, i, g) {
      var p: nat :| Spaces(s, i + |g|, p) && OccursAt(s, k, p);
      SpacesBound(s, i + |g|, p);
      assert s[p] == s[p..p + |k|][0] == k[0];
    }
  }

  /** `AltAt` captures exactly what the alternative's regular expression captures. */
  lemma AltAtCorrect(alt: Alt, s: string, i: nat, g: string)
    requires i <= |s| && PlainKey(alt)
    ensures AltAt(alt, s, i) == Some(g) <==> AltCapture(alt, s, i, g)
  {
    match alt
    case Digits =>
      DigitRunAtIff(s, i, g);
    case After(k, spaced) =>
      if spaced {
        AfterSpacedCorrect(k, s, i, g);
      } else if OccursAt(s, k, i) {
        DigitRunAtIff(s, i + |k|, g);
      }
    case Before(k) =>
      BeforeCorrect(k, s, i, g);
  }

  /** `AltAt` finds nothing exactly where the alternative cannot match. */
  lemma AltAtNone(alt: Alt, s: string, i: nat)
    requires i <= |s| && PlainKey(alt)
    ensures AltAt(alt, s, i).None? <==> NoCapture(alt, s, i)
  {
    if AltAt(alt, s, i).Some? {
      AltAtCorrect(alt, s, i, AltAt(alt, s, i).value);
    } else {
      forall g ensures !AltCapture(alt, s, i, g) {
        AltAtCorrect(alt, s, i, g);
      }
    }
  }

  /** The tail of plain alternatives is plain. */
  lemma AllPlainTail(alts: seq<Alt>)
    requires alts != [] && AllPlain(alts)
    ensures PlainKey(alts[0]) && AllPlain(alts[1..])
  {
    forall k | 0 <= k < |alts[1..]| ensures PlainKey(alts[1..][k]) {
      assert alts[1..][k] == alts[k + 1];
    }
  }

  /** When the first alternative matches at `i`, its capture is the pattern's. */
  lemma HeadMatches(alts: seq<Alt>, s: string, i: nat, g: string, g0: string)
    requires i <= |s| && alts != [] && PlainKey(alts[0]) && AltAt(alts[0], s, i) == Some(g0)
    ensures g == g0 <==> PatternAt(alts, s, i, g)
    ensures MatchesAt(alts, s, i)
  {
    AltAtCorrect(alts[0], s, i, g0);
    AltAtCorrect(alts[0], s, i, g);
    assert !NoCapture(alts[0], s, i);
    if g == g0 {
      assert AltCapture(alts[0], s, i, g);
    }
  }

  /** When the first alternative does not match at `i`, the pattern is its tail there. */
  lemma HeadFails(alts: seq<Alt>, s: string, i: nat, g: string)
    requires i <= |s| && alts != [] && NoCapture(alts[0], s, i)
    ensures PatternAt(alts, s, i, g) <==> PatternAt(alts[1..], s, i, g)
    ensures MatchesAt(alts, s, i) <==> MatchesAt(alts[1..], s, i)
  {
    var rest := alts[1..];
    if PatternAt(rest, s, i, g) {
      var m :| 0 <= m < |rest| && AltCapture(rest[m], s, i, g) && forall n :: 0 <= n < m ==> NoCapture(rest[n], s, i);
      assert alts[m + 1] == rest[m];
      forall n | 0 <= n < m + 1 ensures NoCapture(alts[n], s, i) {
        if n > 0 {
          assert alts[n] == rest[n - 1];
        }
      }
    }
    if PatternAt(alts, s, i, g) {
      var m :| 0 <= m < |alts| && AltCapture(alts[m], s, i, g) && forall n :: 0 <= n < m ==> NoCapture(alts[n], s, i);
      assert m != 0;
      assert rest[m - 1] == alts[m];
      forall n | 0 <= n < m - 1 ensures NoCapture(rest[n], s, i) {
        assert rest[n] == alts[n + 1];
      }
    }
    if MatchesAt(alts, s, i) {
      var m, g1 :| 0 <= m < |alts| && AltCapture(alts[m], s, i, g1);
      assert m != 0;
      assert rest[m - 1] == alts[m];
    }
    if MatchesAt(rest, s, i) {
      var m, g1 :| 0 <= m < |rest| && AltCapture(rest[m], s, i, g1);
      assert alts[m + 1] == rest[m];
    }
  }

  /** At one position, the alternatives are tried in order and the first that matches gives the group. */
  lemma {:induction false} AltsAtCorrect(alts: seq<Alt>, s: string, i: nat, g: string)
    requires i <= |s| && AllPlain(alts)
    ensures AltsAt(alts, s, i) == Some(g) <==> PatternAt(alts, s, i, g)
    ensures AltsAt(alts, s, i).None? <==> !MatchesAt(alts, s, i)
    decreases |alts|
  {
    if alts != [] {
      AllPlainTail(alts);
      AltAtNone(alts[0], s, i);
      match AltAt(alts[0], s, i)
      case Some(g0) =>
        HeadMatches(alts, s, i, g, g0);
      case None =>
        AltsAtCorrect(alts[1..], s, i, g);
        HeadFails(alts, s, i, g);
    }
  }

  /** `i` is the leftmost position from `from` where the alternatives find something, and they find `g`. */
  ghost predicate LeftmostAt(alts: seq<Alt>, s: string, from: nat, i: nat, g: string) {
    from <= i <= |s| && AltsAt(alts, s, i) == Some(g) && forall j :: from <= j < i ==> AltsAt(alts, s, j).None?
  }

  ghost predicate NoneFrom(alts: seq<Alt>, s: string, from: nat) {
    forall i :: from <= i <= |s| ==> AltsAt(alts, s, i).None?
  }

  /** `FindDigits` answers at the leftmost position where some alternative matches. */
  lemma {:induction false} FindDigitsLeftmost(alts: seq<Alt>, s: string, from: nat, g: string)
    requires from <= |s|
    ensures FindDigits(alts, s, from) == Some(g) <==> exists i :: LeftmostAt(alts, s, from, i, g)
    ensures FindDigits(alts, s, from).None? <==> NoneFrom(alts, s, from)
    decreases |s| - from
  {
    if AltsAt(alts, s, from).Some? {
      if AltsAt(alts, s, from) == Some(g) {
        assert LeftmostAt(alts, s, from, from, g);
      }
      assert !NoneFrom(alts, s, from);
    } else if from < |s| {
      FindDigitsLeftmost(alts, s, from + 1, g);
      if FindDigits(alts, s, from + 1) == Some(g) {
        var i :| LeftmostAt(alts, s, from + 1, i, g);
        assert LeftmostAt(alts, s, from, i, g);
      }
      if exists i :: LeftmostAt(alts, s, from, i, g) {
        var i :| LeftmostAt(alts, s, from, i, g);
        assert LeftmostAt(alts, s, from + 1, i, g);
      }
      if NoneFrom(alts, s, from + 1) {
        assert NoneFrom(alts, s, from);
      }
    } else {
      assert NoneFrom(alts, s, from);
    }
  }

  /**
   * `Regex(alts).find(s, from)` with the group of the alternative that
   * matched: the capture at the leftmost position where some alternative
   * matches, of the first alternative that matches there; nothing when
   * no alternative matches anywhere.
   */
  lemma FindDigitsCorrect(alts: seq<Alt>, s: string, from: nat, g: string)
    requires from <= |s| && AllPlain(alts)
    ensures FindDigits(alts, s, from) == Some(g) <==> FirstMatch(alts, s, from, g)
    ensures FindDigits(alts, s, from).None? <==> forall i :: from <= i <= |s| ==> !MatchesAt(alts, s, i)
  {
    FindDigitsLeftmost(alts, s, from, g);
    forall j | from <= j <= |s| ensures AltsAt(alts, s, j).None? <==> !MatchesAt(alts, s, j) {
      AltsAtCorrect(alts, s, j, g);
    }
    if FindDigits(alts, s, from) == Some(g) {
      var i :| LeftmostAt(alts, s, from, i, g);
      AltsAtCorrect(alts, s, i, g);
      assert FirstMatch(alts, s, from, g);
    }
    if FirstMatch(alts, s, from, g) {
      var i :| from <= i <= |s| && PatternAt(alts, s, i, g) && forall j :: from <= j < i ==> !MatchesAt(alts, s, j);
      AltsAtCorrect(alts, s, i, g);
      assert LeftmostAt(alts, s, from, i, g);
    }
  }

  /** `…find(s)…?.toIntOrNull()`: the value of the first match's capture, or null when there is none. */
  lemma ParseNumberCorrect(alts: seq<Alt>, s: string, g: string)
    requires AllPlain(alts)
    ensures FirstMatch(alts, s, 0, g) ==> ParseNumber(alts, s) == ToIntOrNull(g)
    ensures (forall i :: 0 <= i <= |s| ==> !MatchesAt(alts, s, i)) ==> ParseNumber(alts, s) == None
  {
    FindDigitsCorrect(alts, s, 0, g);
  }

  const KeyTheEpisode: string := "الحلقة"
  const KeyEpisode: string := "حلقة"

  /** `ep-(\d+)`. */
  const EpInUrl: seq<Alt> := [After("ep-", false)]

  /** `ep-` occurs at `i` and a digit follows it. */
  predicate EpAt(h: string, i: nat) {
    OccursAt(h, "ep-", i) && i + 3 < |h| && IsDigit(h[i + 3])
  }

  /** At one position, `ep-(\d+)` matches exactly at an `ep-` followed by a digit, and takes the whole run. */
  lemma EpAltAt(h: string, j: nat)
    requires j <= |h|
    ensures AltsAt(EpInUrl, h, j).Some? <==> EpAt(h, j)
    ensures EpAt(h, j) ==> AltsAt(EpInUrl, h, j) == Some(h[j + 3..DigitRunEnd(h, j + 3)])
  {
    assert EpInUrl[1..] == [];
  }

  /** `Regex("ep-(\d+)").find(h)?.groupValues?.get(1)?.toIntOrNull()`: the digits after the first `ep-` followed by one. */
  lemma EpInUrlNumber(h: string, i: nat)
    requires i <= |h| && EpAt(h, i) && forall j :: 0 <= j < i ==> !EpAt(h, j)
    ensures ParseNumber(EpInUrl, h) == ToIntOrNull(h[i + 3..DigitRunEnd(h, i + 3)])
  {
    var g := h[i + 3..DigitRunEnd(h, i + 3)];
    EpAltAt(h, i);
    forall j | 0 <= j < i ensures AltsAt(EpInUrl, h, j).None? {
      EpAltAt(h, j);
    }
    assert LeftmostAt(EpInUrl, h, 0, i, g);
    FindDigitsLeftmost(EpInUrl, h, 0, g);
  }

  /** Without an `ep-` followed by a digit there is no number. */
  lemma EpInUrlNone(h: string)
    requires forall i :: 0 <= i <= |h| ==> !EpAt(h, i)
    ensures ParseNumber(EpInUrl, h) == None
  {
    forall i | 0 <= i <= |h| ensures AltsAt(EpInUrl, h, i).None? {
      EpAltAt(h, i);
    }
    FindDigitsLeftmost(EpInUrl, h, 0, []);
  }

  /** Every alternative names a key containing `k` (so no bare `(\d+)`). */
  predicate KeysContain(alts: seq<Alt>, k: string) {
    forall a :: a in alts ==> !a.Digits? && Contains(a.key, k)
  }

  lemma {:induction false} AltsAtNeedKey(alts: seq<Alt>, s: string, i: nat, k: string)
    requires i <= |s| && KeysContain(alts, k) && AltsAt(alts, s, i).Some?
    ensures Contains(s, k)
  {
    var a := alts[0];
    if AltAt(a, s, i).Some? {
      var p: nat := if a.After? then i else SkipWhile(s, DigitRunEnd(s, i), IsRegexSpace);
      assert OccursAt(s, a.key, p);
      assert s[p..p + |a.key|] == a.key;
      ContainsSlice(s, p, p + |a.key|, k);
    } else {
      assert forall b :: b in alts[1..] ==> b in alts;
      AltsAtNeedKey(alts[1..], s, i, k);
    }
  }

  /** A pattern all of whose alternatives name `k` only finds a number in a text containing `k`. */
  lemma {:induction false} FindDigitsNeedsKey(alts: seq<Alt>, s: string, from: nat, k: string)
    requires from <= |s| && KeysContain(alts, k)
    ensures FindDigits(alts, s, from).Some? ==> Contains(s, k)
    decreases |s| - from
  {
    if AltsAt(alts, s, from).Some? {
      AltsAtNeedKey(alts, s, from, k);
    } else if from < |s| {
      FindDigitsNeedsKey(alts, s, from + 1, k);
    }
  }

  predicate NotDigit(c: char) { !IsDigit(c) }

  /** The first maximal run of ASCII digits at or after `from`. */
  function FirstDigitRun(s: string, from: nat): (r: Option<string>)
    requires from <= |s|
  {
    var d := SkipWhile(s, from, NotDigit);
    if d < |s| then Some(s[d..DigitRunEnd(s, d)]) else None
  }

  /** `k\s*(\d+)` or `k(\d+)` with a non-empty key free of digits. */
  predicate DigitFreeKey(a: Alt) {
    a.After? && |a.key| > 0 && forall c :: c in a.key ==> NotDigit(c)
  }

  /** Alternatives that are digit-free keys followed by digits, ending in a bare `(\d+)`. */
  predicate KeysThenDigits(alts: seq<Alt>) {
    |alts| > 0 && alts[|alts| - 1] == Digits && forall k :: 0 <= k < |alts| - 1 ==> DigitFreeKey(alts[k])
  }

  /**
   * A pattern of digit-free keys followed by digits, ending in a bare
   * `(\d+)`, always captures the first digit run: before the first digit no
   * alternative can end in digits, and a key found earlier is followed,
   * after its spaces, by exactly that run.
   */
  lemma {:induction false} KeysThenDigitsFindFirstRun(alts: seq<Alt>, s: string, from: nat)
    requires from <= |s| && KeysThenDigits(alts)
    ensures FindDigits(alts, s, from) == FirstDigitRun(s, from)
    decreases |s| - from
  {
    AltsAtFirstRun(alts, s, from);
    if from < |s| && !IsDigit(s[from]) && AltsAt(alts, s, from).None? {
      KeysThenDigitsFindFirstRun(alts, s, from + 1);
      SkipWhileUnique(s, from, NotDigit, SkipWhile(s, from + 1, NotDigit));
    }
  }

  /** A digit-free key at `i`, then characters that are no digits, leave no digit from `i` to `j`. */
  lemma KeyThenNoDigits(s: string, key: string, i: nat, j: nat)
    requires OccursAt(s, key, i) && i + |key| <= j <= |s|
    requires forall c :: c in key ==> NotDigit(c)
    requires forall t :: i + |key| <= t < j ==> NotDigit(s[t])
    ensures forall t :: i <= t < j ==> NotDigit(s[t])
  {
    forall t | i <= t < i + |key| ensures NotDigit(s[t]) {
      assert s[t] == s[i..i + |key|][t - i] == key[t - i];
      assert key[t - i] in key;
    }
  }

  /** A digit-free key alternative captures the first digit run or nothing, and nothing at a digit. */
  lemma KeyAltFirstRun(a: Alt, s: string, i: nat)
    requires i <= |s| && DigitFreeKey(a)
    ensures AltAt(a, s, i).Some? ==> AltAt(a, s, i) == FirstDigitRun(s, i)
    ensures i < |s| && IsDigit(s[i]) ==> AltAt(a, s, i).None?
    ensures i == |s| ==> AltAt(a, s, i).None?
  {
    if OccursAt(s, a.key, i) {
      assert s[i] == a.key[0] && a.key[0] in a.key;
      var j := if a.spaced then SkipWhile(s, i + |a.key|, IsRegexSpace) else i + |a.key|;
      if DigitRunEnd(s, j) > j {
        KeyThenNoDigits(s, a.key, i, j);
        SkipWhileUnique(s, i, NotDigit, j);
      }
    }
  }

  /** The bare `(\d+)` captures the run starting at a digit, and nothing elsewhere. */
  lemma DigitsAltFirstRun(s: string, i: nat)
    requires i <= |s|
    ensures AltAt(Digits, s, i).Some? <==> i < |s| && IsDigit(s[i])
    ensures AltAt(Digits, s, i).Some? ==> AltAt(Digits, s, i) == FirstDigitRun(s, i)
  {
    if i < |s| && IsDigit(s[i]) {
      SkipWhileUnique(s, i, NotDigit, i);
    }
  }

  /** At one position, such a pattern either finds the first digit run or nothing; at a digit it finds the run. */
  lemma {:induction false} AltsAtFirstRun(alts: seq<Alt>, s: string, i: nat)
    requires i <= |s| && KeysThenDigits(alts)
    ensures AltsAt(alts, s, i).Some? ==> AltsAt(alts, s, i) == FirstDigitRun(s, i)
    ensures i < |s| && IsDigit(s[i]) ==> AltsAt(alts, s, i) == FirstDigitRun(s, i)
    ensures i == |s| ==> AltsAt(alts, s, i).None?
    decreases |alts|
  {
    if |alts| == 1 {
      assert alts[0] == Digits;
      DigitsAltFirstRun(s, i);
    } else {
      KeyAltFirstRun(alts[0], s, i);
      assert KeysThenDigits(alts[1..]) by {
        forall k | 0 <= k < |alts[1..]| - 1 ensures DigitFreeKey(alts[1..][k]) {
          assert alts[1..][k] == alts[k + 1];
        }
      }
      AltsAtFirstRun(alts[1..], s, i);
    }
  }
}
