/**
 * The provider for new.eishq.net: its page URLs, the reading of the Base64
 * `watch` payload, the four stages of `loadLinks` and the episode list of
 * `load`.
 */
module Eishq {
  import opened Options
  import opened Text
  import opened VideoUrl
  import opened Episodes
  import opened Links

  const MainUrl: string := "https://new.eishq.net"
  const Site: string := "قصة عشق"

  // ---- Page URLs ---------------------------------------------------------

  /** The listing URL of `getMainPage`: pages after the first add `page/N/` to the category path. */
  function MainPageUrl(data: string, page: int): string
  {
    if page > 1 then MainUrl + "/" + data + "page/" + IntToString(page) + "/" else MainUrl + "/" + data
  }

  /**
   * The first page is the bare category URL; a later page's URL ends in
   * `page/<digits>/` whose digits read back as the page number.
   */
  lemma MainPageUrlPage(data: string, page: int)
    requires page <= MaxInt
    ensures page <= 1 ==> MainPageUrl(data, page) == MainUrl + "/" + data
    ensures page > 1 ==> MainPageUrl(data, page) == MainUrl + "/" + data + "page/" + DecimalString(page) + "/"
    ensures page > 1 ==> ToIntOrNull(DecimalString(page)) == Some(page)
  {
    if page > 1 {
      ToIntOrNullRoundTrip(page);
    }
  }

  /** `toSearchResult`'s type test: a series unless the link is under `/movies/` and not under `/series/`. */
  function IsSeries(href: string): bool {
    Contains(href, "/series/") || !Contains(href, "/movies/")
  }

  /** Every link into a `/series/` path is a series, whatever follows; a link outside `/movies/` is one too. */
  lemma IsSeriesPaths(prefix: string, rest: string, href: string)
    ensures IsSeries(prefix + "/series/" + rest)
    ensures !Contains(href, "/movies/") ==> IsSeries(href)
    ensures !IsSeries(href) ==> Contains(href, "/movies/") && !Contains(href, "/series/")
  {
    var s := prefix + "/series/" + rest;
    assert s[|prefix|..|prefix| + 8] == "/series/";
    assert OccursAt(s, "/series/", |prefix|);
  }

  /** `search`'s URL: the query goes after `/?s=` as it is, without any encoding. */
  function SearchUrl(query: string): string {
    MainUrl + "/?s=" + query
  }

  /** Whatever the query holds, spaces and `&` included, the search URL holds too, right after `/?s=`. */
  lemma SearchUrlVerbatim(query: string, sub: string)
    ensures StartsWith(SearchUrl(query), MainUrl + "/?s=")
    ensures SearchUrl(query)[|MainUrl| + 4..] == query
    ensures Contains(query, sub) ==> Contains(SearchUrl(query), sub)
  {
    var lead := MainUrl + "/?s=";
    assert SearchUrl(query) == lead + query;
    assert SearchUrl(query)[..|lead|] == lead;
    if Contains(query, sub) {
      ContainsConcat(lead, query, sub);
    }
  }

  // ---- The downloads page ------------------------------------------------

  /**
   * The downloads page of `data`: the query, if any, is replaced by
   * `?do=downloads`; otherwise trailing slashes give way to `/?do=downloads`.
   */
  function DownloadsUrl(data: string): string
  {
    if Contains(data, "?") then SubstringBefore(data, "?") + DownloadsQuery
    else TrimEndChar(data, '/') + "/" + DownloadsQuery
  }

  const DownloadsQuery: string := "?do=downloads"

  /** `data[i]` is the first `c` of `data`. */
  predicate FirstOf(data: string, c: char, i: nat) {
    i < |data| && data[i] == c && c !in data[..i]
  }

  /** `data[n..]` is the run of trailing `/` of `data`. */
  predicate TrailingSlashesFrom(data: string, n: nat) {
    n <= |data| && (forall k :: n <= k < |data| ==> data[k] == '/') && (n > 0 ==> data[n - 1] != '/')
  }

  lemma NoQueryBefore(data: string)
    requires Contains(data, "?")
    ensures '?' !in SubstringBefore(data, "?")
  {
    var i := IndexOf(data, "?", 0).value;
    forall k | 0 <= k < i ensures data[..i][k] != '?' {
      assert !OccursAt(data, "?", k);
      assert data[k..k + 1][0] == data[k];
    }
  }

  lemma NoQueryTrimmed(data: string)
    requires !Contains(data, "?")
    ensures '?' !in TrimEndChar(data, '/') + "/"
  {
    ContainsChar(data, '?');
    assert forall k :: 0 <= k < |TrimEndChar(data, '/')| ==> TrimEndChar(data, '/')[k] == data[k];
  }

  /** The only `?` of `?do=downloads` is its first character. */
  predicate OnlyQueryMark(r: string) {
    EndsWith(r, DownloadsQuery) && forall k :: 0 <= k < |r| && r[k] == '?' ==> k == |r| - |DownloadsQuery|
  }

  /** A prefix without `?` followed by `?do=downloads` has that query's `?` as its only one. */
  lemma OneQueryMark(pre: string)
    requires '?' !in pre
    ensures OnlyQueryMark(pre + DownloadsQuery)
  {
    var r := pre + DownloadsQuery;
    assert r[|pre|..] == DownloadsQuery;
    forall k | 0 <= k < |r| && r[k] == '?' ensures k == |pre| {
      if k >= |pre| {
        assert r[k] == DownloadsQuery[k - |pre|];
      }
    }
  }

  /** The downloads URL ends in `?do=downloads`, and the `?` starting that query is its only one. */
  lemma DownloadsUrlQuery(data: string)
    ensures OnlyQueryMark(DownloadsUrl(data))
  {
    var pre := if Contains(data, "?") then SubstringBefore(data, "?") else TrimEndChar(data, '/') + "/";
    PrefixBeforeQuery(data);
    assert DownloadsUrl(data) == pre + DownloadsQuery;
    OneQueryMark(pre);
  }

  /** Helper for `DownloadsUrlQuery`: what precedes the appended query holds no `?`. */
  lemma PrefixBeforeQuery(data: string)
    ensures Contains(data, "?") ==> '?' !in SubstringBefore(data, "?")
    ensures !Contains(data, "?") ==> '?' !in TrimEndChar(data, '/') + "/"
  {
    if Contains(data, "?") {
      NoQueryBefore(data);
    } else {
      NoQueryTrimmed(data);
    }
  }

  /** With a query, everything from the first `?` on is replaced. */
  lemma DownloadsUrlReplacesQuery(data: string)
    requires Contains(data, "?")
    ensures exists i: nat :: FirstOf(data, '?', i) && DownloadsUrl(data) == data[..i] + DownloadsQuery
  {
    var i := IndexOf(data, "?", 0).value;
    assert data[i..i + 1] == "?";
    forall k | 0 <= k < i ensures data[..i][k] != '?' {
      assert !OccursAt(data, "?", k);
      assert data[k..k + 1][0] == data[k];
    }
    assert FirstOf(data, '?', i);
  }

  /** Without a query, every trailing `/` is dropped before `/?do=downloads` is appended. */
  lemma DownloadsUrlTrimsSlashes(data: string)
    requires !Contains(data, "?")
    ensures exists n: nat :: TrailingSlashesFrom(data, n) && DownloadsUrl(data) == data[..n] + "/" + DownloadsQuery
  {
    var a := TrimEndChar(data, '/');
    assert TrailingSlashesFrom(data, |a|);
    assert DownloadsUrl(data) == data[..|a|] + "/" + DownloadsQuery;
  }

  // ---- The watch payload ---------------------------------------------------

  predicate NotDoubleQuote(c: char) { c != '"' }
  predicate NoDoubleQuote(g: string) { forall k :: 0 <= k < |g| ==> NotDoubleQuote(g[k]) }

  /** `"v"\s*:\s*"` matches `s[i..q + 1]`, with the colon at `c`. */
  predicate KeyPrefixAt(s: string, i: nat, c: nat, q: nat) {
    && OccursAt(s, "\"v\"", i) && i + 3 <= c < q < |s|
    && (forall t :: i + 3 <= t < c ==> IsRegexSpace(s[t])) && s[c] == ':'
    && (forall t :: c + 1 <= t < q ==> IsRegexSpace(s[t])) && s[q] == '"'
  }

  /** `([^"]+)"` matches from `q + 1`, capturing `g`. */
  predicate ValueAt(s: string, q: nat, g: string) {
    && q + |g| + 1 < |s| && |g| > 0
    && s[q + 1..q + 1 + |g|] == g && NoDoubleQuote(g) && s[q + 1 + |g|] == '"'
  }

  /**
   * `"v"\s*:\s*"([^"]+)"` matches from `i`, capturing `g`.  Neither `\s*`
   * can give anything back (`:` and `"` are not spaces), and `[^"]+` must
   * stop at the next `"`, so the capture is the whole text between the
   * opening quote and the next one.
   */
  ghost predicate VFieldAt(s: string, i: nat, g: string) {
    exists c: nat, q: nat :: KeyPrefixAt(s, i, c, q) && ValueAt(s, q, g)
  }

  /** The matcher for that pattern at index `i`. */
  function MatchV(s: string, i: nat): (r: Option<string>)
  {
    if !OccursAt(s, "\"v\"", i) then None
    else
      var c := SkipWhile(s, i + 3, IsRegexSpace);
      if c < |s| && s[c] == ':' then
        var q := SkipWhile(s, c + 1, IsRegexSpace);
        if q < |s| && s[q] == '"' then
          var e := SkipWhile(s, q + 1, NotDoubleQuote);
          if e < |s| && e > q + 1 then Some(s[q + 1..e]) else None
        else None
      else None
  }

  lemma KeyPrefixForced(s: string, i: nat, c: nat, q: nat)
    requires KeyPrefixAt(s, i, c, q)
    ensures c == SkipWhile(s, i + 3, IsRegexSpace) && q == SkipWhile(s, c + 1, IsRegexSpace)
  {
    SkipWhileUnique(s, i + 3, IsRegexSpace, c);
    SkipWhileUnique(s, c + 1, IsRegexSpace, q);
  }

  lemma ValueForced(s: string, q: nat, g: string)
    requires ValueAt(s, q, g)
    ensures SkipWhile(s, q + 1, NotDoubleQuote) == q + 1 + |g|
  {
    forall t | q + 1 <= t < q + 1 + |g| ensures NotDoubleQuote(s[t]) {
      assert s[t] == g[t - q - 1];
    }
    SkipWhileUnique(s, q + 1, NotDoubleQuote, q + 1 + |g|);
  }

  /** A match forces both space runs, the opening quote and the closing one to be where the matcher looks. */
  lemma VFieldForced(s: string, i: nat, g: string)
    requires VFieldAt(s, i, g)
    ensures MatchV(s, i) == Some(g)
  {
    var c: nat, q: nat :| KeyPrefixAt(s, i, c, q) && ValueAt(s, q, g);
    KeyPrefixForced(s, i, c, q);
    ValueForced(s, q, g);
  }

  /** The matcher returns exactly the capture of a match from `i`, and nothing when none starts there. */
  lemma MatchVCorrect(s: string, i: nat)
    ensures MatchV(s, i).Some? ==> VFieldAt(s, i, MatchV(s, i).value)
    ensures forall g :: VFieldAt(s, i, g) ==> MatchV(s, i) == Some(g)
  {
    if MatchV(s, i).Some? {
      var c := SkipWhile(s, i + 3, IsRegexSpace);
      var q := SkipWhile(s, c + 1, IsRegexSpace);
      var e := SkipWhile(s, q + 1, NotDoubleQuote);
      var g := s[q + 1..e];
      assert KeyPrefixAt(s, i, c, q);
      assert NoDoubleQuote(g);
      assert ValueAt(s, q, g);
    }
    forall g | VFieldAt(s, i, g) ensures MatchV(s, i) == Some(g) {
      VFieldForced(s, i, g);
    }
  }

  /** `Regex(…).find(decoded)?.groupValues?.get(1)` from index `from` on: the leftmost match. */
  function FindV(s: string, from: nat): (r: Option<Match>)
    ensures r.Some? ==> from <= r.value.start && VFieldAt(s, r.value.start, r.value.group)
    ensures r.Some? ==> forall k: nat, g :: from <= k < r.value.start ==> !VFieldAt(s, k, g)
    ensures r.None? ==> forall k: nat, g :: from <= k ==> !VFieldAt(s, k, g)
    decreases |s| - from
  {
    if from >= |s| then
      assert forall k: nat, g :: from <= k ==> !VFieldAt(s, k, g);
      None
    else
      MatchVCorrect(s, from);
      match MatchV(s, from)
      case Some(g) => Some(Match(from, g))
      case None => FindV(s, from + 1)
  }

  /** The `v` value of a decoded payload: non-empty and free of `"`. */
  function VField(decoded: string): (r: Option<string>)
    ensures r.Some? ==> |r.value| > 0 && '"' !in r.value
  {
    match FindV(decoded, 0)
    case None => None
    case Some(m) => Some(m.group)
  }

  /** `replace("\\/", "/")`, scanning from the left. */
  function Unescape(g: string): string {
    ReplaceAll(g, "\\/", "/")
  }

  /** JSON's optional escaping of `/` as `\/`. */
  function Escape(t: string): string {
    if t == [] then [] else (if t[0] == '/' then "\\/" else [t[0]]) + Escape(t[1..])
  }

  lemma {:induction false} EscapeHead(t: string)
    requires t != []
    ensures Escape(t) != [] && Escape(t)[0] != '/'
  {
  }

  /**
   * Unescaping undoes JSON's `\/` escaping for every URL: a `\` of the URL
   * is never followed by a `/` in the escaped text, so only the escapes match.
   */
  lemma {:induction false} UnescapeEscape(t: string)
    ensures Unescape(Escape(t)) == t
    decreases |t|
  {
    if t != [] {
      var rest := Escape(t[1..]);
      UnescapeEscape(t[1..]);
      if t[0] == '/' {
        assert Escape(t) == "\\/" + rest;
        assert (("\\/" + rest)[..2]) == "\\/";
        assert ("\\/" + rest)[2..] == rest;
      } else {
        assert Escape(t) == [t[0]] + rest;
        if |rest| > 0 {
          EscapeHead(t[1..]);
          assert ([t[0]] + rest)[..2] != "\\/" by {
            assert ([t[0]] + rest)[1] == rest[0];
          }
          assert ([t[0]] + rest)[1..] == rest;
        }
      }
    }
  }

  /** The decoded payload `{"v":"<value>"}`. */
  function Payload(value: string): string {
    "{\"v\":\"" + value + "\"}"
  }

  /** Helper for `PayloadMatch`: where the parts of a payload sit. */
  lemma PayloadChars(g: string)
    ensures var d := Payload(g);
      && |d| == |g| + 8 && d[0] == '{' && d[1..4] == "\"v\"" && d[4] == ':' && d[5] == '"'
      && d[6..6 + |g|] == g && d[6 + |g|] == '"'
  {
    var lead := "{\"v\":\"";
    var d := lead + g + "\"}";
    assert d[..6] == lead && d[6..6 + |g|] == g;
    assert d[1..4] == lead[1..4];
  }

  lemma PayloadMatch(g: string)
    requires |g| > 0 && NoDoubleQuote(g)
    ensures FindV(Payload(g), 0) == Some(Match(1, g))
  {
    var d := Payload(g);
    PayloadChars(g);
    assert KeyPrefixAt(d, 1, 4, 5) && ValueAt(d, 5, g);
    MatchVCorrect(d, 1);
    assert d[0..3][0] == '{';
  }

  lemma {:induction false} EscapeKeepsQuotes(t: string)
    ensures |Escape(t)| >= |t|
    ensures NoDoubleQuote(t) ==> NoDoubleQuote(Escape(t))
    decreases |t|
  {
    if t != [] {
      EscapeKeepsQuotes(t[1..]);
      var h := if t[0] == '/' then "\\/" else [t[0]];
      assert Escape(t) == h + Escape(t[1..]);
      if NoDoubleQuote(t) {
        assert NoDoubleQuote(t[1..]) by {
          forall k | 0 <= k < |t[1..]| ensures NotDoubleQuote(t[1..][k]) {
            assert t[1..][k] == t[k + 1];
          }
        }
        forall k | 0 <= k < |Escape(t)| ensures NotDoubleQuote(Escape(t)[k]) {
          if k >= |h| {
            assert Escape(t)[k] == Escape(t[1..])[k - |h|];
          }
        }
      }
    }
  }

  /**
   * A watch payload carrying a URL with its `/` escaped as JSON writes them
   * gives back exactly that URL: the `v` field is the escaped text, and the
   * unescape restores it.  For instance `{"v":"https:\/\/h\/a.m3u8"}`
   * yields `https://h/a.m3u8`.
   */
  lemma WatchPayloadRoundTrip(url: string)
    requires |url| > 0 && NoDoubleQuote(url)
    ensures VField(Payload(Escape(url))) == Some(Escape(url))
    ensures Unescape(VField(Payload(Escape(url))).value) == url
  {
    EscapeKeepsQuotes(url);
    PayloadMatch(Escape(url));
    UnescapeEscape(url);
  }

  /** The replacement runs once, left to right: an escaped backslash before `/` leaves `\/` behind. */
  lemma UnescapeOnce()
    ensures Unescape("\\\\/") == "\\/"
  {
    var s := "\\\\/";
    assert s[1] == '\\';
    assert s[..2] != "\\/";
    assert s[1..] == "\\/";
    assert ReplaceAll(s[1..], "\\/", "/") == "/";
  }

  // ---- loadLinks -----------------------------------------------------------

  /**
   * Stage 1, one `input[name=watch]`: a non-blank value is Base64-decoded,
   * its `v` field unescaped, and a new, non-blank URL claimed and handed to
   * `loadExtractor`, falling back to a fetch of the embed page.
   */
  function WatchStep(st: State, host: Host, data: string, value: string): State
  {
    if IsBlank(value) then st
    else match host.decode(value)
      case None => st
      case Some(decoded) =>
        match VField(decoded)
        case None => st
        case Some(g) =>
          var clean := Unescape(g);
          if !IsBlank(clean) && clean !in st.processed then
            ExtractOrScan(Record(st, Claim(Watch, clean)), host, Watch, Site, "Primary", clean, data)
          else st
  }

  /** The URL stage 1 takes from watch value `value`, if any. */
  function WatchUrl(host: Host, value: string): Option<string>
  {
    if IsBlank(value) then None
    else match host.decode(value)
      case None => None
      case Some(decoded) =>
        match VField(decoded)
        case None => None
        case Some(g) => if IsBlank(Unescape(g)) then None else Some(Unescape(g))
  }

  function WatchFold(st: State, host: Host, data: string, values: seq<string>): State
    decreases |values|
  {
    if values == [] then st
    else WatchStep(WatchFold(st, host, data, values[..|values| - 1]), host, data, values[|values| - 1])
  }

  lemma WatchStepInv(st: State, host: Host, data: string, value: string)
    requires Inv(st)
    ensures var r := WatchStep(st, host, data, value);
      && Inv(r) && Extends(st, r, Watch)
      && (WatchUrl(host, value).Some? ==> WatchUrl(host, value).value in r.processed)
  {
    var r := WatchStep(st, host, data, value);
    if WatchUrl(host, value).Some? {
      var clean := WatchUrl(host, value).value;
      if clean !in st.processed {
        var st1 := Record(st, Claim(Watch, clean));
        RecordInv(st, Claim(Watch, clean));
        ExtractOrScanInv(st1, host, Watch, Site, "Primary", clean, data);
        ExtendsTrans(st, st1, r, Watch);
      } else {
        ExtendsRefl(st, Watch);
      }
    } else {
      ExtendsRefl(st, Watch);
    }
  }

  /** Stage 1 keeps the invariant and leaves the URL of every usable watch value processed. */
  lemma {:induction false} WatchFoldInv(st: State, host: Host, data: string, values: seq<string>)
    requires Inv(st)
    ensures var r := WatchFold(st, host, data, values);
      && Inv(r) && Extends(st, r, Watch)
      && forall k :: 0 <= k < |values| && WatchUrl(host, values[k]).Some? ==> WatchUrl(host, values[k]).value in r.processed
    decreases |values|
  {
    if values == [] {
      ExtendsRefl(st, Watch);
    } else {
      var init := values[..|values| - 1];
      var mid := WatchFold(st, host, data, init);
      WatchFoldInv(st, host, data, init);
      WatchStepInv(mid, host, data, values[|values| - 1]);
      ExtendsTrans(st, mid, WatchFold(st, host, data, values), Watch);
      forall k | 0 <= k < |values| - 1 ensures values[k] == init[k] { }
    }
  }

  method VisitWatch(st: State, host: Host, data: string, value: string) returns (r: State)
    ensures r == WatchStep(st, host, data, value)
  {
    r := st;
    if !IsBlank(value) {
      var decoded := host.decode(value);
      if decoded.Some? {
        var m := VField(decoded.value);
        if m.Some? {
          var clean := Unescape(m.value);
          if !IsBlank(clean) && clean !in r.processed {
            r := State(r.processed + {clean}, r.hasLinks, r.trace + [Claim(Watch, clean)]);
            r := TryExtractor(r, host, Watch, Site, "Primary", clean, data);
          }
        }
      }
    }
  }

  method WatchStage(st: State, host: Host, data: string, values: seq<string>) returns (r: State)
    ensures r == WatchFold(st, host, data, values)
  {
    r := st;
    for i := 0 to |values|
      invariant r == WatchFold(st, host, data, values[..i])
    {
      assert values[..i + 1][..i] == values[..i];
      r := VisitWatch(r, host, data, values[i]);
    }
    assert values[..|values|] == values;
  }

  /** Stage 2, one downloads link: a new, non-blank link off the site goes to `loadExtractor`. */
  predicate DownloadAllowed(href: string) {
    !IsBlank(href) && !Contains(href, "eishq.net")
  }

  function DownloadStep(st: State, host: Host, data: string, href: string): State
  {
    if DownloadAllowed(href) && href !in st.processed then ExtractOnly(st, host, Downloads, href, data) else st
  }

  function DownloadsFold(st: State, host: Host, data: string, hrefs: seq<string>): State
    decreases |hrefs|
  {
    if hrefs == [] then st
    else DownloadStep(DownloadsFold(st, host, data, hrefs[..|hrefs| - 1]), host, data, hrefs[|hrefs| - 1])
  }

  /** Stage 2: the downloads page is fetched with the page as referer; a failed fetch ends the stage. */
  function DownloadsPhase(st: State, host: Host, data: string): State
  {
    var u := DownloadsUrl(data);
    var resp := host.get(u, data);
    var st1 := Record(st, Fetch(Downloads, u, resp.Some?));
    if resp.None? then st1 else DownloadsFold(st1, host, data, resp.value.downloadHrefs)
  }

  /**
   * One download link keeps the invariant: a new, allowed link is claimed
   * and handed to `loadExtractor`, and ends processed; a blank link, a link
   * of the site itself or one already processed leaves the state as it was.
   */
  lemma DownloadStepInv(st: State, host: Host, data: string, h: string)
    requires Inv(st)
    ensures var r := DownloadStep(st, host, data, h);
      && Inv(r) && Extends(st, r, Downloads)
      && (DownloadAllowed(h) ==> h in r.processed)
      && (DownloadAllowed(h) && h !in st.processed ==>
            r.trace == st.trace + [Claim(Downloads, h), Extract(Downloads, h, host.extract(h, data))])
      && (!(DownloadAllowed(h) && h !in st.processed) ==> r == st)
      && ExtractsOnly(st, r, DownloadAllowed)
  {
    if DownloadAllowed(h) && h !in st.processed {
      ExtractOnlyInv(st, host, Downloads, h, data);
    } else {
      ExtendsRefl(st, Downloads);
    }
  }

  /**
   * The downloads links keep the invariant and leave every allowed link
   * processed; a blank link or one of the site itself is never handed to
   * `loadExtractor`.
   */
  lemma {:induction false} DownloadsFoldInv(st: State, host: Host, data: string, hrefs: seq<string>)
    requires Inv(st)
    ensures var r := DownloadsFold(st, host, data, hrefs);
      && Inv(r) && Extends(st, r, Downloads) && ExtractsOnly(st, r, DownloadAllowed)
      && forall k :: 0 <= k < |hrefs| && DownloadAllowed(hrefs[k]) ==> hrefs[k] in r.processed
    decreases |hrefs|
  {
    if hrefs == [] {
      ExtendsRefl(st, Downloads);
    } else {
      var init := hrefs[..|hrefs| - 1];
      var mid := DownloadsFold(st, host, data, init);
      DownloadsFoldInv(st, host, data, init);
      DownloadStepInv(mid, host, data, hrefs[|hrefs| - 1]);
      ExtendsTrans(st, mid, DownloadsFold(st, host, data, hrefs), Downloads);
      ExtractsOnlyTrans(st, mid, DownloadsFold(st, host, data, hrefs), Downloads, DownloadAllowed);
      forall k | 0 <= k < |hrefs| - 1 ensures hrefs[k] == init[k] { }
    }
  }

  /**
   * Stage 2 keeps the invariant, starts with the request for the downloads
   * page, and, when that succeeds, leaves every allowed link processed; no
   * link of the site itself is ever handed to `loadExtractor` here.
   */
  lemma DownloadsPhaseInv(st: State, host: Host, data: string)
    requires Inv(st)
    ensures var r := DownloadsPhase(st, host, data);
      && Inv(r) && Extends(st, r, Downloads) && ExtractsOnly(st, r, DownloadAllowed)
      && |r.trace| > |st.trace| && r.trace[|st.trace|] == Fetch(Downloads, DownloadsUrl(data), host.get(DownloadsUrl(data), data).Some?)
      && (host.get(DownloadsUrl(data), data).None? ==> r.trace == st.trace + [r.trace[|st.trace|]])
      && (host.get(DownloadsUrl(data), data).Some? ==>
            forall h :: h in host.get(DownloadsUrl(data), data).value.downloadHrefs && DownloadAllowed(h) ==> h in r.processed)
  {
    var u := DownloadsUrl(data);
    var resp := host.get(u, data);
    var st1 := Record(st, Fetch(Downloads, u, resp.Some?));
    RecordInv(st, Fetch(Downloads, u, resp.Some?));
    if resp.Some? {
      var r := DownloadsFold(st1, host, data, resp.value.downloadHrefs);
      DownloadsFoldInv(st1, host, data, resp.value.downloadHrefs);
      ExtendsTrans(st, st1, r, Downloads);
      ExtractsOnlyTrans(st, st1, r, Downloads, DownloadAllowed);
      assert r.trace[|st.trace|] == r.trace[..|st1.trace|][|st.trace|];
    }
  }

  method VisitDownload(st: State, host: Host, data: string, href: string) returns (r: State)
    ensures r == DownloadStep(st, host, data, href)
  {
    r := st;
    if !IsBlank(href) && !Contains(href, "eishq.net") && href !in r.processed {
      r := State(r.processed + {href}, r.hasLinks, r.trace + [Claim(Downloads, href)]);
      var ok := host.extract(href, data);
      r := State(r.processed, r.hasLinks || ok, r.trace + [Extract(Downloads, href, ok)]);
    }
  }

  method DownloadsStage(st: State, host: Host, data: string) returns (r: State)
    ensures r == DownloadsPhase(st, host, data)
  {
    var u := if Contains(data, "?") then SubstringBefore(data, "?") + DownloadsQuery
             else TrimEndChar(data, '/') + "/" + DownloadsQuery;
    var resp := host.get(u, data);
    r := State(st.processed, st.hasLinks, st.trace + [Fetch(Downloads, u, resp.Some?)]);
    if resp.Some? {
      ghost var st1 := r;
      var hrefs := resp.value.downloadHrefs;
      for i := 0 to |hrefs|
        invariant r == DownloadsFold(st1, host, data, hrefs[..i])
      {
        assert hrefs[..i + 1][..i] == hrefs[..i];
        r := VisitDownload(r, host, data, hrefs[i]);
      }
      assert hrefs[..|hrefs|] == hrefs;
    }
  }

  /**
   * `loadLinks(data)`: nothing at all when the page cannot be fetched;
   * otherwise the four stages run in order on one shared state.
   */
  function LoadLinksRun(host: Host, data: string): Option<State>
  {
    match host.get(data, MainUrl)
    case None => None
    case Some(doc) =>
      var s1 := WatchFold(Start, host, data, doc.watchValues);
      var s2 := DownloadsPhase(s1, host, data);
      var s3 := IframesFold(s2, host, Site, data, doc.iframeSrcs);
      Some(ScriptsFold(s3, Site, data, doc.scripts))
  }

  /** Returns `hasLinks` and the trace of the run. */
  method LoadLinks(host: Host, data: string) returns (hasLinks: bool, trace: seq<Event>)
    ensures LoadLinksRun(host, data).None? ==> !hasLinks && trace == []
    ensures LoadLinksRun(host, data).Some? ==>
      hasLinks == LoadLinksRun(host, data).value.hasLinks && trace == LoadLinksRun(host, data).value.trace
  {
    var doc := host.get(data, MainUrl);
    if doc.None? {
      return false, [];
    }
    var st := State({}, false, []);
    st := WatchStage(st, host, data, doc.value.watchValues);
    st := DownloadsStage(st, host, data);
    st := IframesStage(st, host, Site, data, doc.value.iframeSrcs);
    st := ScriptsStage(st, Site, data, doc.value.scripts);
    return st.hasLinks, st.trace;
  }

  /** The stages of Eishq's `loadLinks`. */
  const Stages: set<Stage> := {Watch, Downloads, Iframes, Scripts}

  /**
   * A run keeps the invariant and lists its events stage by stage, in the
   * order watch, downloads, iframes, scripts.
   */
  lemma LoadLinksInv(host: Host, data: string)
    requires LoadLinksRun(host, data).Some?
    ensures var r := LoadLinksRun(host, data).value;
      Inv(r) && InStageOrder(r.trace) && StagesAmong(r.trace, Stages)
  {
    var doc := host.get(data, MainUrl).value;
    var s1 := WatchFold(Start, host, data, doc.watchValues);
    var s2 := DownloadsPhase(s1, host, data);
    var s3 := IframesFold(s2, host, Site, data, doc.iframeSrcs);
    var s4 := ScriptsFold(s3, Site, data, doc.scripts);
    StartOrdered(Watch, Stages);
    StagesWatch(host, data, doc.watchValues);
    StagesDownloads(s1, host, data);
    StagesIframes(s2, host, data, doc.iframeSrcs);
    StagesScripts(s3, data, doc.scripts);
  }

  lemma StagesWatch(host: Host, data: string, values: seq<string>)
    ensures OrderedUpTo(WatchFold(Start, host, data, values), Watch, Stages)
  {
    StartOrdered(Watch, Stages);
    StartInv();
    WatchFoldInv(Start, host, data, values);
    Advance(Start, WatchFold(Start, host, data, values), Watch, Watch, Stages);
  }

  lemma StagesDownloads(st: State, host: Host, data: string)
    requires OrderedUpTo(st, Watch, Stages)
    ensures OrderedUpTo(DownloadsPhase(st, host, data), Downloads, Stages)
  {
    DownloadsPhaseInv(st, host, data);
    Advance(st, DownloadsPhase(st, host, data), Watch, Downloads, Stages);
  }

  lemma StagesIframes(st: State, host: Host, data: string, srcs: seq<string>)
    requires OrderedUpTo(st, Downloads, Stages)
    ensures OrderedUpTo(IframesFold(st, host, Site, data, srcs), Iframes, Stages)
  {
    IframesFoldInv(st, host, Site, data, srcs);
    Advance(st, IframesFold(st, host, Site, data, srcs), Downloads, Iframes, Stages);
  }

  lemma StagesScripts(st: State, data: string, scripts: seq<string>)
    requires OrderedUpTo(st, Iframes, Stages)
    ensures OrderedUpTo(ScriptsFold(st, Site, data, scripts), Scripts, Stages)
  {
    ScriptsFoldInv(st, Site, data, scripts);
    Advance(st, ScriptsFold(st, Site, data, scripts), Iframes, Scripts, Stages);
  }

  /**
   * Every usable watch URL, every allowed iframe and every URL found in a
   * script ends up processed, whatever the downloads request did.
   */
  lemma LoadLinksCoverage(host: Host, data: string)
    requires LoadLinksRun(host, data).Some?
    ensures var r := LoadLinksRun(host, data).value;
      var doc := host.get(data, MainUrl).value;
      && (forall v :: v in doc.watchValues && WatchUrl(host, v).Some? ==> WatchUrl(host, v).value in r.processed)
      && (forall src :: src in doc.iframeSrcs && IframeAllowed(NormalizeSrc(src)) ==> NormalizeSrc(src) in r.processed)
      && (forall sc :: sc in doc.scripts && FindVideoUrl(sc).Some? ==> FindVideoUrl(sc).value in r.processed)
  {
    var doc := host.get(data, MainUrl).value;
    var s1 := WatchFold(Start, host, data, doc.watchValues);
    var s2 := DownloadsPhase(s1, host, data);
    var s3 := IframesFold(s2, host, Site, data, doc.iframeSrcs);
    var s4 := ScriptsFold(s3, Site, data, doc.scripts);
    StartInv();
    WatchFoldInv(Start, host, data, doc.watchValues);
    DownloadsPhaseInv(s1, host, data);
    IframesFoldInv(s2, host, Site, data, doc.iframeSrcs);
    ScriptsFoldInv(s3, Site, data, doc.scripts);
    assert s1.processed <= s4.processed;
    assert s3.processed <= s4.processed;
  }

  /**
   * The filters of the run: no blank link and no link of the site itself
   * reaches `loadExtractor` from the downloads page, and no blank, Google or
   * Facebook frame reaches it from the iframes.
   */
  lemma LoadLinksFilters(host: Host, data: string)
    requires LoadLinksRun(host, data).Some?
    ensures var r := LoadLinksRun(host, data).value;
      && StageExtractsOnly(r.trace, Downloads, DownloadAllowed)
      && StageExtractsOnly(r.trace, Iframes, IframeAllowed)
  {
    var doc := host.get(data, MainUrl).value;
    var s1 := WatchFold(Start, host, data, doc.watchValues);
    var s2 := DownloadsPhase(s1, host, data);
    var s3 := IframesFold(s2, host, Site, data, doc.iframeSrcs);
    var s4 := ScriptsFold(s3, Site, data, doc.scripts);
    StartInv();
    WatchFoldInv(Start, host, data, doc.watchValues);
    DownloadsPhaseInv(s1, host, data);
    IframesFoldInv(s2, host, Site, data, doc.iframeSrcs);
    ScriptsFoldInv(s3, Site, data, doc.scripts);
    StageExtractsStep(Start, s1, Watch, Downloads, DownloadAllowed);
    StageExtractsStep(s1, s2, Downloads, Downloads, DownloadAllowed);
    StageExtractsStep(s2, s3, Iframes, Downloads, DownloadAllowed);
    StageExtractsStep(s3, s4, Scripts, Downloads, DownloadAllowed);
    StageExtractsStep(Start, s1, Watch, Iframes, IframeAllowed);
    StageExtractsStep(s1, s2, Downloads, Iframes, IframeAllowed);
    StageExtractsStep(s2, s3, Iframes, Iframes, IframeAllowed);
    StageExtractsStep(s3, s4, Scripts, Iframes, IframeAllowed);
  }

  // ---- Episodes of load ----------------------------------------------------

  /** `الحلقة\s*(\d+)|حلقة\s*(\d+)|(\d+)`. */
  const TitleNumber: seq<Alt> := [After(KeyTheEpisode, true), After(KeyEpisode, true), Digits]

  /**
   * The title pattern reads the first run of digits of the title: both keys
   * are digit-free words followed by digits, and the last alternative takes
   * any digits, so whichever alternative matches first captures that run.
   */
  lemma TitleNumberIsFirstDigits(title: string)
    ensures ParseNumber(TitleNumber, title) ==
      match FirstDigitRun(title, 0) case Some(g) => ToIntOrNull(g) case None => None
  {
    assert DigitFreeKey(TitleNumber[0]) && DigitFreeKey(TitleNumber[1]);
    KeysThenDigitsFindFirstRun(TitleNumber, title, 0);
  }

  /** The number from `ep-(\d+)` in the link, or else from the title. */
  function NumberOf(href: string, title: string): Option<int>
  {
    match ParseNumber(EpInUrl, href)
    case Some(n) => Some(n)
    case None => ParseNumber(TitleNumber, title)
  }

  /** The trimmed anchor text; if blank, the trimmed text of a nested `span`/`div`, or `Episode` without one. */
  function PrimaryTitle(a: Anchor): string
  {
    var t := Trim(a.text);
    if IsBlank(t) then (match a.nested case Some(n) => Trim(n) case None => "Episode") else t
  }

  /** An anchor of the episode selectors: skipped when its `href` is blank or the series page itself. */
  function PrimaryEpisode(url: string, a: Anchor): Option<Episode>
  {
    if IsBlank(a.href) || a.href == url then None
    else Some(Episode(a.href, PrimaryTitle(a), NumberOf(a.href, PrimaryTitle(a))))
  }

  /** An anchor of the `-ep-` fallback: the resolved link, the trimmed text or `Episode`, the number from the link only. */
  function FallbackEpisode(url: string, fixUrl: string -> string, a: Anchor): Option<Episode>
  {
    var h := fixUrl(a.href);
    if IsBlank(h) || h == url then None
    else Some(Episode(h, if IsBlank(Trim(a.text)) then "Episode" else Trim(a.text), ParseNumber(EpInUrl, h)))
  }

  /** The list before sorting: the fallback anchors are read only when the primary ones give nothing. */
  function Collected(url: string, fixUrl: string -> string, primary: seq<Anchor>, fallback: seq<Anchor>): seq<Episode>
  {
    var p := Keep(primary, a => PrimaryEpisode(url, a));
    if p != [] then p else Keep(fallback, a => FallbackEpisode(url, fixUrl, a))
  }

  /** `episodes.sortBy { it.episode }` then `distinctBy { it.data }`. */
  function EpisodeList(url: string, fixUrl: string -> string, primary: seq<Anchor>, fallback: seq<Anchor>): seq<Episode>
  {
    DistinctByData(SortByNumber(Collected(url, fixUrl, primary, fallback)))
  }

  /** `load` answers a series when episodes were found and a movie whose data is the page otherwise. */
  datatype Loaded = Series(episodes: seq<Episode>) | Movie(data: string)

  /** `load(url)`; `None` for the page stands for a failed request, answered by the `Error` movie. */
  function LoadResult(url: string, fixUrl: string -> string, doc: Option<(seq<Anchor>, seq<Anchor>)>): Loaded
  {
    match doc
    case None => Movie(url)
    case Some(d) =>
      var eps := EpisodeList(url, fixUrl, d.0, d.1);
      if eps != [] then Series(eps) else Movie(url)
  }

  /** `e` is what a primary anchor of `primary` makes. */
  ghost predicate FromPrimary(url: string, primary: seq<Anchor>, e: Episode) {
    && !IsBlank(e.data) && e.data != url && e.episode == NumberOf(e.data, e.name)
    && exists k :: 0 <= k < |primary| && primary[k].href == e.data
  }

  /** `e` is what a fallback anchor of `fallback` makes. */
  ghost predicate FromFallback(url: string, fixUrl: string -> string, fallback: seq<Anchor>, e: Episode) {
    && !IsBlank(e.data) && e.data != url && e.episode == ParseNumber(EpInUrl, e.data) && !IsBlank(e.name)
    && exists k :: 0 <= k < |fallback| && fixUrl(fallback[k].href) == e.data
  }

  lemma PrimaryKept(url: string, primary: seq<Anchor>)
    ensures var p := Keep(primary, a => PrimaryEpisode(url, a));
      && (p != [] <==> exists k :: 0 <= k < |primary| && !IsBlank(primary[k].href) && primary[k].href != url)
      && (forall e :: e in p ==> FromPrimary(url, primary, e))
  {
    var pf := a => PrimaryEpisode(url, a);
    KeepSpec(primary, pf);
    forall e | e in Keep(primary, pf) ensures FromPrimary(url, primary, e) {
      var k :| 0 <= k < |primary| && pf(primary[k]) == Some(e);
    }
  }

  /** `text.trim().ifBlank { "Episode" }` is never blank. */
  lemma FallbackNameNotBlank(text: string)
    ensures !IsBlank(if IsBlank(Trim(text)) then "Episode" else Trim(text))
  {
    TrimBlank(text);
    assert !IsWhitespace("Episode"[0]);
  }

  lemma FallbackKept(url: string, fixUrl: string -> string, fallback: seq<Anchor>)
    ensures forall e :: e in Keep(fallback, a => FallbackEpisode(url, fixUrl, a)) ==> FromFallback(url, fixUrl, fallback, e)
  {
    var ff := a => FallbackEpisode(url, fixUrl, a);
    KeepSpec(fallback, ff);
    forall e | e in Keep(fallback, ff) ensures FromFallback(url, fixUrl, fallback, e) {
      var k :| 0 <= k < |fallback| && ff(fallback[k]) == Some(e);
      FallbackNameNotBlank(fallback[k].text);
    }
  }

  /**
   * The fallback anchors are read exactly when no primary anchor has a
   * usable link; no episode links to a blank address or back to the series
   * page; primary episodes are numbered by link, then title, fallback ones
   * by link only, and fallback names are never blank.
   */
  lemma CollectedEpisodes(url: string, fixUrl: string -> string, primary: seq<Anchor>, fallback: seq<Anchor>)
    ensures var p := Keep(primary, a => PrimaryEpisode(url, a));
      var c := Collected(url, fixUrl, primary, fallback);
      && (p != [] <==> exists k :: 0 <= k < |primary| && !IsBlank(primary[k].href) && primary[k].href != url)
      && (p != [] ==> forall e :: e in c ==> FromPrimary(url, primary, e))
      && (p == [] ==> forall e :: e in c ==> FromFallback(url, fixUrl, fallback, e))
      && (forall e :: e in c ==> !IsBlank(e.data) && e.data != url)
  {
    PrimaryKept(url, primary);
    FallbackKept(url, fixUrl, fallback);
  }

  /**
   * A primary episode's name is blank exactly when the anchor text is blank
   * and a nested element supplies a blank text: `Episode` stands in only
   * when there is no nested `span`/`div`.
   */
  lemma PrimaryTitleBlank(a: Anchor)
    ensures IsBlank(PrimaryTitle(a)) <==> IsBlank(a.text) && a.nested.Some? && IsBlank(a.nested.value)
    ensures PrimaryTitle(a) == "Episode" || !IsBlank(a.text) || a.nested.Some?
  {
    TrimBlank(a.text);
    if a.nested.Some? {
      TrimBlank(a.nested.value);
    } else {
      assert !IsWhitespace("Episode"[0]);
    }
  }

  /**
   * The episode list has unique links, is ordered by number with unnumbered
   * episodes first, and keeps exactly one episode, the first in sorted
   * order, for each link collected.
   */
  lemma EpisodeListProps(url: string, fixUrl: string -> string, primary: seq<Anchor>, fallback: seq<Anchor>)
    ensures var c := Collected(url, fixUrl, primary, fallback);
      var r := EpisodeList(url, fixUrl, primary, fallback);
      && UniqueData(r) && SortedByNumber(r)
      && (forall e :: e in r ==> e in c && !IsBlank(e.data) && e.data != url)
      && (forall e :: e in c ==> exists e' :: e' in r && e'.data == e.data)
      && (r == [] <==> c == [])
      && (exists idx :: FirstsInOrder(r, SortByNumber(c), idx))
  {
    var c := Collected(url, fixUrl, primary, fallback);
    SortThenDistinct(c);
    SortThenDistinctEmpty(c);
    CollectedEpisodes(url, fixUrl, primary, fallback);
  }

  /** `load` answers a series exactly when its page was fetched and some episode was collected. */
  lemma LoadResultKind(url: string, fixUrl: string -> string, doc: Option<(seq<Anchor>, seq<Anchor>)>)
    ensures LoadResult(url, fixUrl, doc).Series? <==> doc.Some? && Collected(url, fixUrl, doc.value.0, doc.value.1) != []
    ensures LoadResult(url, fixUrl, doc).Movie? ==> LoadResult(url, fixUrl, doc).data == url
  {
    if doc.Some? {
      EpisodeListProps(url, fixUrl, doc.value.0, doc.value.1);
    }
  }

  /** The episode part of `load`, as its loops build the list. */
  method LoadEpisodes(url: string, fixUrl: string -> string, primary: seq<Anchor>, fallback: seq<Anchor>)
    returns (unique: seq<Episode>)
    ensures unique == EpisodeList(url, fixUrl, primary, fallback)
  {
    var episodes := PrimaryLinks(url, primary);
    if episodes == [] {
      episodes := FallbackLinks(url, fixUrl, fallback);
    }
    episodes := SortByNumber(episodes);
    unique := DistinctByData(episodes);
  }

  /** The `forEach` over the primary episode anchors. */
  method PrimaryLinks(url: string, primary: seq<Anchor>) returns (episodes: seq<Episode>)
    ensures episodes == Keep(primary, a => PrimaryEpisode(url, a))
  {
    episodes := [];
    for i := 0 to |primary|
      invariant episodes == Keep(primary[..i], a => PrimaryEpisode(url, a))
    {
      assert primary[..i + 1][..i] == primary[..i];
      var a := primary[i];
      if !IsBlank(a.href) && a.href != url {
        var title := Trim(a.text);
        if IsBlank(title) {
          title := if a.nested.Some? then Trim(a.nested.value) else "Episode";
        }
        var num := ParseNumber(EpInUrl, a.href);
        if num.None? {
          num := ParseNumber(TitleNumber, title);
        }
        episodes := episodes + [Episode(a.href, title, num)];
      }
    }
    assert primary[..|primary|] == primary;
  }

  /** The `forEach` over the `-ep-` fallback anchors. */
  method FallbackLinks(url: string, fixUrl: string -> string, fallback: seq<Anchor>) returns (episodes: seq<Episode>)
    ensures episodes == Keep(fallback, a => FallbackEpisode(url, fixUrl, a))
  {
    episodes := [];
    for i := 0 to |fallback|
      invariant episodes == Keep(fallback[..i], a => FallbackEpisode(url, fixUrl, a))
    {
      assert fallback[..i + 1][..i] == fallback[..i];
      var href := fixUrl(fallback[i].href);
      if !IsBlank(href) && href != url {
        var title := Trim(fallback[i].text);
        if IsBlank(title) {
          title := "Episode";
        }
        episodes := episodes + [Episode(href, title, ParseNumber(EpInUrl, href))];
      }
    }
    assert fallback[..|fallback|] == fallback;
  }
}
