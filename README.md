# Eishq and Shahid providers: a Dafny model

Two scraper plugins of a media app, one for new.eishq.net (Eishq) and one for
w.shahidmosalsalat.me (Shahid). Each plugin turns pages of its site into
search results, episode lists and stream links. This project models their
deterministic core and proves properties about it:

- `findVideoUrl`, the three-pattern stream-URL extractor. Both files contain it verbatim.
- The page, search, downloads and player URLs.
- Reading the Base64 `watch` payload.
- The episode list of `load`: number parsing, entry filtering, the stable
  `sortBy` with null numbers first, and `distinctBy`.
- The `loadLinks` pipelines: four stages for Eishq, three for Shahid.

Modules:

- `Options`: the `Option` type.
- `Text`: the Kotlin string functions the plugins call (`isBlank`, `trim`,
  `contains`, `replace`, `substringBefore`, `trimEnd`, `Int` formatting,
  `toIntOrNull`), over `seq<char>`.
- `VideoUrl`: `findVideoUrl`. Each regular expression has two parts: a
  declarative predicate saying where the pattern matches and what it
  captures, and an executable matcher proved to agree with it. `find` is the
  leftmost match.
- `Episodes`: episodes, the stable sort, `distinctBy`, collecting anchors,
  and the small episode-number patterns.
- `Links`: the shared machinery of `loadLinks`. A run keeps `processedUrls`,
  `hasLinks` and a trace of what it did:
  - every successful `processedUrls.add`;
  - every `loadExtractor` verdict;
  - every request;
  - every link handed to `callback`.

  Each stage is a fold of a step function, and each imperative stage
  method is proved to compute its fold. The invariant `Inv` says three
  things: `processedUrls` is the set of claimed URLs; `hasLinks` is true
  exactly when something succeeded; and every use of a URL directly follows
  the claim of that URL.
- `Eishq` and `Shahid`: each site's URLs, its stages and its `load` episode list.

Findings of the proofs:

- **Eishq title pattern.** `الحلقة\s*(\d+)|حلقة\s*(\d+)|(\d+)` always yields
  the first run of digits in the title. The Arabic keywords make no
  difference (`Eishq.TitleNumberIsFirstDigits`).
- **Shahid inline filter.** `epNum != null || contains("حلقة") ||
  contains("الحلقة")` is the same as `contains("حلقة")`. A title that passes
  the filter is never blank, so the `"الحلقة $epNum"` default can never
  apply (`Shahid.InlineKeep`).
- **The check in `findVideoUrl`.** The non-blank, `.m3u8`/`.mp4` check on a
  capture never rejects anything. As a result, the first pattern that
  matches anywhere in the text decides the result.

Two behaviours of the code that are easy to misread:

- `sortBy { it.episode }` uses Kotlin's `compareValues`, which puts
  episodes without a number *first*.
- Eishq's watch-input stage does not hand the decoded URL to `callback`. It
  gives the URL to `loadExtractor`. It emits a link only for what
  `findVideoUrl` finds on the fetched embed page, and only when
  `loadExtractor` reported nothing.

## Model

| member | source | states |
|---|---|---|
| VideoUrl.FindVideoUrl | Eishq/src/main/kotlin/com/Eishq/Eishq.kt:201-218 | any URL returned is non-blank and contains `.m3u8` or `.mp4` |
| VideoUrl.FindVideoUrlLoop | Eishq/src/main/kotlin/com/Eishq/Eishq.kt:201-218 | the pattern loop with early return computes `FindVideoUrl`; its result holds no quote |
| VideoUrl.CaptureProperties | Eishq/src/main/kotlin/com/Eishq/Eishq.kt:212 | every capture of every pattern passes the check at line 212 and holds no `'` or `"` |
| VideoUrl.ExtFromAccepted | Eishq/src/main/kotlin/com/Eishq/Eishq.kt:212 | a text with `.m3u8` or `.mp4` after its first character is non-blank and passes the check |
| VideoUrl.FileKeyQuoted | Eishq/src/main/kotlin/com/Eishq/Eishq.kt:203-204 | a match of the `file/src/source` pattern contains a match of the quoted pattern with the same capture |
| VideoUrl.FileKeyNeedsQuoted | Eishq/src/main/kotlin/com/Eishq/Eishq.kt:203-204 | the first pattern can match only where the second does |
| VideoUrl.LeftmostUnique | Eishq/src/main/kotlin/com/Eishq/Eishq.kt:209 | `Regex.find` returns the leftmost match and its capture |
| VideoUrl.FindFound | Eishq/src/main/kotlin/com/Eishq/Eishq.kt:209 | a successful find is the leftmost capture, which is accepted and free of quotes |
| VideoUrl.FindVideoUrlCases | Shahid/src/main/kotlin/com/Shahid/Shahid.kt:216-233 | the result is the capture of the file-key pattern if it matches, else the capture of the quoted pattern, else of the bare-URL pattern, else none |
| VideoUrl.FindVideoUrlPriority | Eishq/src/main/kotlin/com/Eishq/Eishq.kt:202-214 | returns `g` iff `g` is the leftmost capture of rule a, or rule a matches nowhere and `g` is that of rule b, or neither a nor b matches and `g` is that of rule c |
| VideoUrl.FindVideoUrlNone | Eishq/src/main/kotlin/com/Eishq/Eishq.kt:201-218 | nothing is found iff the text has neither a quoted capture nor a bare http(s) capture; a result holds no quote |
| Text.IndexOf | Eishq/src/main/kotlin/com/Eishq/Eishq.kt:290 | the first occurrence at or after `from`, none before it; none at all when absent |
| Text.Contains | Eishq/src/main/kotlin/com/Eishq/Eishq.kt:289 | true iff the text occurs at some index |
| Text.ContainsChar | Eishq/src/main/kotlin/com/Eishq/Eishq.kt:289 | a one-character `contains` is membership |
| Text.ContainsTrans | Shahid/src/main/kotlin/com/Shahid/Shahid.kt:186 | containing `الحلقة`, which contains `حلقة`, means containing `حلقة` |
| Text.TrimEndChar | Eishq/src/main/kotlin/com/Eishq/Eishq.kt:292 | `trimEnd('/')` is a prefix, drops only `/`, and leaves no trailing `/` |
| Text.TrimStart | Eishq/src/main/kotlin/com/Eishq/Eishq.kt:147 | the suffix left after dropping leading whitespace |
| Text.TrimEnd | Eishq/src/main/kotlin/com/Eishq/Eishq.kt:147 | the prefix left after dropping trailing whitespace |
| Text.TrimBlank | Eishq/src/main/kotlin/com/Eishq/Eishq.kt:147 | `trim()` is blank iff its input is, and blank only when empty; a non-empty trim has non-blank ends |
| Text.TrimStartEmpty | Eishq/src/main/kotlin/com/Eishq/Eishq.kt:147 | `trimStart` leaves nothing iff the text is blank |
| Text.TrimEndEmpty | Eishq/src/main/kotlin/com/Eishq/Eishq.kt:147 | `trimEnd` leaves nothing iff the text is blank |
| Text.SkipWhile | Shahid/src/main/kotlin/com/Shahid/Shahid.kt:290 | the end of the longest run satisfying the predicate |
| Text.SkipWhileUnique | Shahid/src/main/kotlin/com/Shahid/Shahid.kt:290 | that end is the only index with those properties |
| Text.ReplaceCharAt | Shahid/src/main/kotlin/com/Shahid/Shahid.kt:96 | replacing a character keeps the length and changes exactly that character |
| Text.DecimalString | Eishq/src/main/kotlin/com/Eishq/Eishq.kt:66 | a template `$page` is a non-empty digit string without a leading zero |
| Text.DecimalRoundTrip | Eishq/src/main/kotlin/com/Eishq/Eishq.kt:66 | reading the decimal form back gives the number |
| Text.ToIntOrNull | Eishq/src/main/kotlin/com/Eishq/Eishq.kt:152 | a digit run gives its value when it is at most 2147483647, otherwise null |
| Text.ToIntOrNullRoundTrip | Eishq/src/main/kotlin/com/Eishq/Eishq.kt:152 | every non-negative `Int` formats and parses back to itself |
| Episodes.SortByNumberCorrect | Eishq/src/main/kotlin/com/Eishq/Eishq.kt:178 | `sortBy` yields an ordering with null numbers first; it is a permutation; it is stable, keeping each number's episodes in input order |
| Episodes.InsertWithNumber | Eishq/src/main/kotlin/com/Eishq/Eishq.kt:178 | inserting one episode keeps the relative order of every number class |
| Episodes.DistinctMembers | Eishq/src/main/kotlin/com/Eishq/Eishq.kt:181 | `distinctBy` keeps only input elements whose key was not seen |
| Episodes.DistinctUnique | Eishq/src/main/kotlin/com/Eishq/Eishq.kt:181 | the result has pairwise different `data` |
| Episodes.DistinctSurvives | Eishq/src/main/kotlin/com/Eishq/Eishq.kt:181 | every unseen `data` of the input survives |
| Episodes.DistinctSorted | Eishq/src/main/kotlin/com/Eishq/Eishq.kt:181 | deduplicating a list sorted by number keeps it sorted |
| Episodes.DistinctKeepsFirst | Eishq/src/main/kotlin/com/Eishq/Eishq.kt:181 | the result is, in order, the first element of each `data` |
| Episodes.SortThenDistinct | Shahid/src/main/kotlin/com/Shahid/Shahid.kt:197-200 | after sort then dedup: unique `data`, sorted with nulls first, only collected episodes, every collected `data` kept, and the firsts of the stably sorted list in order |
| Episodes.SortThenDistinctMembers | Eishq/src/main/kotlin/com/Eishq/Eishq.kt:178-181 | sort then dedup keeps only input episodes |
| Episodes.SortThenDistinctSurvives | Eishq/src/main/kotlin/com/Eishq/Eishq.kt:178-181 | sort then dedup keeps an episode for every input `data` |
| Episodes.SortThenDistinctEmpty | Eishq/src/main/kotlin/com/Eishq/Eishq.kt:178-181 | sort then dedup is empty iff its input is |
| Episodes.KeepSpec | Eishq/src/main/kotlin/com/Eishq/Eishq.kt:143-160 | an episode is collected iff some anchor makes it; nothing is collected iff no anchor makes one |
| Episodes.KeepTotal | Shahid/src/main/kotlin/com/Shahid/Shahid.kt:133-146 | when every anchor makes an episode, the list has one per anchor, in anchor order |
| Episodes.DigitRunEnd | Eishq/src/main/kotlin/com/Eishq/Eishq.kt:152 | greedy `\d+` ends at the first non-digit |
| Episodes.AltAtCorrect | Shahid/src/main/kotlin/com/Shahid/Shahid.kt:138 | an alternative captures `g` at `i` iff its regular expression reads `g` there: key, spaces, the whole digit run; key, the whole digit run; the whole digit run, spaces, key; or the whole digit run alone |
| Episodes.AfterSpacedCorrect | Shahid/src/main/kotlin/com/Shahid/Shahid.kt:138 | `k\s*(\d+)` captures the digit run that follows the key and any spaces, and nothing else |
| Episodes.BeforeCorrect | Shahid/src/main/kotlin/com/Shahid/Shahid.kt:138 | `(\d+)\s*k` captures the whole digit run at `i` iff the key follows it after any spaces |
| Episodes.AltsAtCorrect | Shahid/src/main/kotlin/com/Shahid/Shahid.kt:138 | at one position the first alternative that matches gives the group; nothing is found iff no alternative matches there |
| Episodes.FindDigitsLeftmost | Eishq/src/main/kotlin/com/Eishq/Eishq.kt:153 | `find` answers at the leftmost position where the alternatives find something, and finds nothing iff they find nothing anywhere |
| Episodes.FindDigitsCorrect | Eishq/src/main/kotlin/com/Eishq/Eishq.kt:153 | `find` with `groupValues.drop(1).firstOrNull { it.isNotBlank() }` gives the capture of the first matching alternative at the leftmost position where one matches; none iff no alternative matches anywhere |
| Episodes.ParseNumberCorrect | Eishq/src/main/kotlin/com/Eishq/Eishq.kt:153 | the number is `toIntOrNull` of that capture, and null when nothing matches |
| Episodes.EpAltAt | Eishq/src/main/kotlin/com/Eishq/Eishq.kt:152 | `ep-(\d+)` matches at a position iff `ep-` is there with a digit after it, and captures the whole run |
| Episodes.EpInUrlNumber | Eishq/src/main/kotlin/com/Eishq/Eishq.kt:152 | the link's number is `toIntOrNull` of the digit run after the first `ep-` that is followed by a digit |
| Episodes.EpInUrlNone | Eishq/src/main/kotlin/com/Eishq/Eishq.kt:152 | a link without an `ep-` followed by a digit has no number from the link |
| Episodes.FindDigitsNeedsKey | Shahid/src/main/kotlin/com/Shahid/Shahid.kt:182 | a pattern whose alternatives all name a key finds a number only in a text containing that key |
| Episodes.KeysThenDigitsFindFirstRun | Eishq/src/main/kotlin/com/Eishq/Eishq.kt:153 | digit-free keys followed by digits, then a bare `(\d+)`, capture the first digit run |
| Episodes.KeyAltFirstRun | Eishq/src/main/kotlin/com/Eishq/Eishq.kt:153 | a digit-free key alternative captures the first digit run or nothing, and nothing at a digit |
| Episodes.DigitsAltFirstRun | Eishq/src/main/kotlin/com/Eishq/Eishq.kt:153 | the bare `(\d+)` matches exactly at a digit, capturing the run there |
| Links.RecordInv | Eishq/src/main/kotlin/com/Eishq/Eishq.kt:234-235 | recording an event allowed after the trace keeps `processedUrls == claimed`, `hasLinks == succeeded` and well-formedness |
| Links.EmitFoundInv | Eishq/src/main/kotlin/com/Eishq/Eishq.kt:350-364 | emitting an accepted, quote-free URL (claim, then link, unless already processed) keeps the invariant and leaves it processed |
| Links.ScanInv | Eishq/src/main/kotlin/com/Eishq/Eishq.kt:347-366 | a `findVideoUrl` scan keeps the invariant and leaves the found URL processed |
| Links.ExtractOrScanInv | Eishq/src/main/kotlin/com/Eishq/Eishq.kt:316-340 | `loadExtractor`, then the fallback fetch and scan when it fails, keep the invariant |
| Links.ExtractOnlyInv | Eishq/src/main/kotlin/com/Eishq/Eishq.kt:300-305 | a claimed URL handed to `loadExtractor` keeps the invariant and is processed |
| Links.NormalizeSrcIdempotent | Eishq/src/main/kotlin/com/Eishq/Eishq.kt:314 | `//` → `https:` is idempotent, never leaves a `//` prefix, and touches nothing else |
| Links.IframeStepInv | Eishq/src/main/kotlin/com/Eishq/Eishq.kt:312-344 | one iframe keeps the invariant; an allowed normalised `src` ends processed |
| Links.IframeStepEvents | Eishq/src/main/kotlin/com/Eishq/Eishq.kt:313-318 | a new allowed `src` is claimed and at once handed to `loadExtractor`, the only URL handed to it; a blank, Google, Facebook or processed `src` leaves the state unchanged |
| Links.ExtractOrScanEvents | Eishq/src/main/kotlin/com/Eishq/Eishq.kt:316-340 | the claimed URL is handed to `loadExtractor` first, and no other URL is; the fallback scan only claims and emits |
| Links.IframesFoldInv | Shahid/src/main/kotlin/com/Shahid/Shahid.kt:254-287 | the iframe stage adds only iframe events, hands `loadExtractor` only allowed frames, and leaves every allowed `src` processed |
| Links.ScanText | Eishq/src/main/kotlin/com/Eishq/Eishq.kt:348-365 | computes the scan step |
| Links.TryExtractor | Eishq/src/main/kotlin/com/Eishq/Eishq.kt:252-279 | `loadExtractor`, then on failure the fetch and scan, compute the extract-or-scan step |
| Links.VisitIframe | Eishq/src/main/kotlin/com/Eishq/Eishq.kt:313-343 | computes the iframe step |
| Links.IframesStage | Eishq/src/main/kotlin/com/Eishq/Eishq.kt:312-344 | the `forEach` computes the iframe fold |
| Links.ScriptsFoldInv | Eishq/src/main/kotlin/com/Eishq/Eishq.kt:347-366 | the script stage adds only script events and leaves each script's URL processed |
| Links.ScriptsStage | Shahid/src/main/kotlin/com/Shahid/Shahid.kt:332-351 | the `forEach` computes the script fold |
| Links.ClaimsDistinct | Eishq/src/main/kotlin/com/Eishq/Eishq.kt:235 | no URL is claimed twice |
| Links.UsesFollowClaims | Eishq/src/main/kotlin/com/Eishq/Eishq.kt:250 | every `loadExtractor` call and link directly follows the claim of its URL |
| Links.NoUrlUsedTwice | Eishq/src/main/kotlin/com/Eishq/Eishq.kt:250 | no URL reaches `loadExtractor` or `callback` twice, nor both |
| Links.SucceededIff | Eishq/src/main/kotlin/com/Eishq/Eishq.kt:260 | `hasLinks` is true iff some link was emitted or some `loadExtractor` call succeeded |
| Links.EmittedLinksWellTyped | Eishq/src/main/kotlin/com/Eishq/Eishq.kt:260-269 | every emitted link is accepted, quote-free and `M3U8` iff it contains `.m3u8` |
| Links.StageOrderStep | Eishq/src/main/kotlin/com/Eishq/Eishq.kt:238-368 | a later stage appended to an ordered trace keeps it ordered by stage |
| Links.StagesStep | Eishq/src/main/kotlin/com/Eishq/Eishq.kt:238-368 | appending a stage of the set keeps every event in the set of stages |
| Links.Advance | Shahid/src/main/kotlin/com/Shahid/Shahid.kt:253-351 | a stage that extends a run ordered up to an earlier stage leaves it ordered up to itself |
| Eishq.MainPageUrlPage | Eishq/src/main/kotlin/com/Eishq/Eishq.kt:65-69 | page ≤ 1 is the bare category URL; later pages end in `page/N/`, and `N` reads back as the page |
| Eishq.IsSeriesPaths | Eishq/src/main/kotlin/com/Eishq/Eishq.kt:51 | any `/series/` link is a series; a movie link has `/movies/` and no `/series/` |
| Eishq.SearchUrlVerbatim | Eishq/src/main/kotlin/com/Eishq/Eishq.kt:87 | the query follows `/?s=` unencoded and unchanged |
| Eishq.NoQueryBefore | Eishq/src/main/kotlin/com/Eishq/Eishq.kt:290 | the text before the first `?` holds no `?` |
| Eishq.NoQueryTrimmed | Eishq/src/main/kotlin/com/Eishq/Eishq.kt:292 | without a `?` the trimmed path holds none |
| Eishq.DownloadsUrlQuery | Eishq/src/main/kotlin/com/Eishq/Eishq.kt:289-293 | the downloads URL ends in `?do=downloads`, and the `?` starting that query is its only one |
| Eishq.OneQueryMark | Eishq/src/main/kotlin/com/Eishq/Eishq.kt:290-293 | a `?`-free prefix followed by `?do=downloads` has that query's `?` as its only one |
| Eishq.DownloadsUrlReplacesQuery | Eishq/src/main/kotlin/com/Eishq/Eishq.kt:289-290 | with a `?`, everything from the first `?` is replaced by `?do=downloads` |
| Eishq.DownloadsUrlTrimsSlashes | Eishq/src/main/kotlin/com/Eishq/Eishq.kt:291-292 | without one, all trailing `/` give way to `/?do=downloads` |
| Eishq.KeyPrefixForced | Eishq/src/main/kotlin/com/Eishq/Eishq.kt:247 | `"v"\s*:\s*"` fixes the position of the colon and of the opening quote |
| Eishq.ValueForced | Eishq/src/main/kotlin/com/Eishq/Eishq.kt:247 | `([^"]+)"` after the quote has exactly one capture |
| Eishq.VFieldForced | Eishq/src/main/kotlin/com/Eishq/Eishq.kt:247 | a `"v"` match at one position has one capture |
| Eishq.MatchVCorrect | Eishq/src/main/kotlin/com/Eishq/Eishq.kt:247 | the matcher finds a capture iff the pattern matches there, and that capture |
| Eishq.FindV | Eishq/src/main/kotlin/com/Eishq/Eishq.kt:247 | the leftmost `"v":"…"` match and its capture |
| Eishq.VField | Eishq/src/main/kotlin/com/Eishq/Eishq.kt:247-248 | the `v` value taken is non-empty and free of `"` |
| Eishq.EscapeHead | Eishq/src/main/kotlin/com/Eishq/Eishq.kt:249 | JSON escaping never starts with `/` |
| Eishq.UnescapeEscape | Eishq/src/main/kotlin/com/Eishq/Eishq.kt:249 | `replace("\\/", "/")` undoes JSON's `\/` escaping for every string |
| Eishq.PayloadMatch | Eishq/src/main/kotlin/com/Eishq/Eishq.kt:247 | in `{"v":"g"}` the first `v` field is `g` |
| Eishq.EscapeKeepsQuotes | Eishq/src/main/kotlin/com/Eishq/Eishq.kt:249 | escaping adds no `"` |
| Eishq.WatchPayloadRoundTrip | Eishq/src/main/kotlin/com/Eishq/Eishq.kt:243-250 | a payload `{"v":"<url with \/>"}` yields exactly the url, so `{"v":"https:\/\/h\/a.m3u8"}` yields `https://h/a.m3u8` |
| Eishq.UnescapeOnce | Eishq/src/main/kotlin/com/Eishq/Eishq.kt:249 | the replacement is one left-to-right pass: `\\/` becomes `\/`, not `/` |
| Eishq.WatchStepInv | Eishq/src/main/kotlin/com/Eishq/Eishq.kt:239-283 | one watch input keeps the invariant and leaves its decoded, unescaped, non-blank URL processed |
| Eishq.WatchFoldInv | Eishq/src/main/kotlin/com/Eishq/Eishq.kt:239-284 | stage 1 adds only its own events and leaves every usable watch URL processed |
| Eishq.VisitWatch | Eishq/src/main/kotlin/com/Eishq/Eishq.kt:240-282 | computes the watch step |
| Eishq.WatchStage | Eishq/src/main/kotlin/com/Eishq/Eishq.kt:239-284 | the `forEach` computes stage 1 |
| Eishq.DownloadsFoldInv | Eishq/src/main/kotlin/com/Eishq/Eishq.kt:298-306 | every non-blank off-site download link ends processed, and no blank or `eishq.net` link is handed to `loadExtractor` |
| Eishq.DownloadStepInv | Eishq/src/main/kotlin/com/Eishq/Eishq.kt:299-305 | a new allowed link adds exactly its claim and its `loadExtractor` call; a blank, `eishq.net` or processed link leaves the state unchanged |
| Eishq.DownloadsPhaseInv | Eishq/src/main/kotlin/com/Eishq/Eishq.kt:287-309 | stage 2 starts with the downloads request and ends there when it fails; otherwise every allowed link ends processed; no site link reaches `loadExtractor` |
| Eishq.LoadLinksFilters | Eishq/src/main/kotlin/com/Eishq/Eishq.kt:297-315 | in the whole run, every downloads-stage `loadExtractor` call is on a non-blank off-site link and every iframe-stage call on an allowed frame |
| Eishq.VisitDownload | Eishq/src/main/kotlin/com/Eishq/Eishq.kt:299-305 | computes the download step |
| Eishq.DownloadsStage | Eishq/src/main/kotlin/com/Eishq/Eishq.kt:288-309 | computes stage 2 |
| Eishq.LoadLinks | Eishq/src/main/kotlin/com/Eishq/Eishq.kt:220-369 | `false` with no trace when the page fails; otherwise the `hasLinks` and trace of the four stages |
| Eishq.StagesWatch | Eishq/src/main/kotlin/com/Eishq/Eishq.kt:239-284 | after stage 1 the run is ordered up to the watch stage |
| Eishq.StagesDownloads | Eishq/src/main/kotlin/com/Eishq/Eishq.kt:288-309 | after stage 2 it is ordered up to the downloads stage |
| Eishq.StagesIframes | Eishq/src/main/kotlin/com/Eishq/Eishq.kt:312-344 | after stage 3 it is ordered up to the iframe stage |
| Eishq.StagesScripts | Eishq/src/main/kotlin/com/Eishq/Eishq.kt:347-366 | after stage 4 it is ordered up to the script stage |
| Eishq.LoadLinksInv | Eishq/src/main/kotlin/com/Eishq/Eishq.kt:238-368 | a run keeps the invariant; its events come stage by stage, watch → downloads → iframes → scripts |
| Eishq.LoadLinksCoverage | Eishq/src/main/kotlin/com/Eishq/Eishq.kt:288-366 | every usable watch URL, allowed iframe and script URL ends processed, whatever the downloads request did |
| Links.LoadLinksResult | Eishq/src/main/kotlin/com/Eishq/Eishq.kt:236-368 | for any run keeping the invariant, as both `LoadLinksInv` lemmas show each site's run does: `hasLinks` iff some success; no URL used twice; emitted links typed by extension |
| Eishq.TitleNumberIsFirstDigits | Eishq/src/main/kotlin/com/Eishq/Eishq.kt:153 | the title pattern reads the first digit run of the title |
| Eishq.PrimaryKept | Eishq/src/main/kotlin/com/Eishq/Eishq.kt:143-160 | primary episodes exist iff some anchor has a non-blank link other than the page; each is numbered from the link, then the title |
| Eishq.FallbackNameNotBlank | Eishq/src/main/kotlin/com/Eishq/Eishq.kt:167 | `trim().ifBlank { "Episode" }` is never blank |
| Eishq.FallbackKept | Eishq/src/main/kotlin/com/Eishq/Eishq.kt:163-175 | fallback episodes have a resolved, non-blank link other than the page, a number from the link only, and a non-blank name |
| Eishq.CollectedEpisodes | Eishq/src/main/kotlin/com/Eishq/Eishq.kt:143-176 | the fallback is read iff no primary anchor is usable; no episode has a blank link or the page's own |
| Eishq.PrimaryTitleBlank | Eishq/src/main/kotlin/com/Eishq/Eishq.kt:147-149 | a primary name is blank iff the anchor text is blank and a nested element has blank text |
| Eishq.EpisodeListProps | Eishq/src/main/kotlin/com/Eishq/Eishq.kt:178-181 | unique `data`, sorted with nulls first, only collected episodes with usable links, each collected link kept, and the kept ones are the first of each link in sorted order |
| Eishq.LoadResultKind | Eishq/src/main/kotlin/com/Eishq/Eishq.kt:183-197 | a series iff the page was fetched and some episode collected; otherwise a movie whose data is the page URL |
| Eishq.LoadEpisodes | Eishq/src/main/kotlin/com/Eishq/Eishq.kt:140-181 | the loops, sort and dedup compute the episode list |
| Eishq.PrimaryLinks | Eishq/src/main/kotlin/com/Eishq/Eishq.kt:143-160 | the primary `forEach` computes the primary episodes |
| Eishq.FallbackLinks | Eishq/src/main/kotlin/com/Eishq/Eishq.kt:162-176 | the fallback `forEach` computes the fallback episodes |
| Shahid.MainPageUrlPage | Shahid/src/main/kotlin/com/Shahid/Shahid.kt:74-78 | the path, then `&` iff it has a `?` (else `?`), then `page=N` even for page 1; `N` reads back |
| Shahid.MainPageUrlQuery | Shahid/src/main/kotlin/com/Shahid/Shahid.kt:74-78 | every listing URL has a query |
| Shahid.PlusForSpacePointwise | Shahid/src/main/kotlin/com/Shahid/Shahid.kt:96 | the keywords keep the query's length, with each space turned into `+` |
| Shahid.SearchUrlKeywords | Shahid/src/main/kotlin/com/Shahid/Shahid.kt:96 | the keywords hold no space; a query without `+` is recovered by the reverse replacement |
| Shahid.IsSeriesPaths | Shahid/src/main/kotlin/com/Shahid/Shahid.kt:59-60 | `view-serie` or `moslslat` links are series; otherwise series iff neither `aflam` nor `movie` |
| Shahid.VidAt | Shahid/src/main/kotlin/com/Shahid/Shahid.kt:290 | a `vid` capture is a non-empty ASCII-alphanumeric run |
| Shahid.FindVid | Shahid/src/main/kotlin/com/Shahid/Shahid.kt:290 | the leftmost `vid=` capture is non-empty and alphanumeric |
| Shahid.FindVidFrom | Shahid/src/main/kotlin/com/Shahid/Shahid.kt:290 | the search returns the first position that matches |
| Shahid.PlayerUrlRoundTrip | Shahid/src/main/kotlin/com/Shahid/Shahid.kt:290-292 | reading `vid` from the player URL gives back the `vid` |
| Shahid.PlayerUrlNoEarlierVid | Shahid/src/main/kotlin/com/Shahid/Shahid.kt:290-292 | no `vid=` starts in the player URL before its own |
| Shahid.VidAtTail | Shahid/src/main/kotlin/com/Shahid/Shahid.kt:290 | `vid=` followed by an alphanumeric run to the end captures the run |
| Shahid.PlayerUrlNotBlank | Shahid/src/main/kotlin/com/Shahid/Shahid.kt:292-293 | the player URL is never blank |
| Shahid.PlayerFramesFoldInv | Shahid/src/main/kotlin/com/Shahid/Shahid.kt:316-324 | every non-blank player-page iframe ends processed, with no host filter |
| Shahid.PlayerFrameStepInv | Shahid/src/main/kotlin/com/Shahid/Shahid.kt:317-323 | one player-page iframe keeps the invariant; a new non-blank one adds exactly its claim and its `loadExtractor` call; a blank or processed one changes nothing |
| Shahid.PlayerScanInv | Shahid/src/main/kotlin/com/Shahid/Shahid.kt:295-312 | the player fetch directly follows its claim; its scan keeps the invariant |
| Shahid.PlayerFramesInv | Shahid/src/main/kotlin/com/Shahid/Shahid.kt:315-324 | the player-iframe half keeps the invariant and covers every non-blank iframe |
| Shahid.PlayerPhaseInv | Shahid/src/main/kotlin/com/Shahid/Shahid.kt:290-329 | stage 2 does nothing without a `vid` or with a processed player URL; otherwise player events come, then player-iframe events |
| Shahid.PlayerClaimedFirst | Shahid/src/main/kotlin/com/Shahid/Shahid.kt:292-295 | a new player URL is claimed first, fetched right after, processed, and its page's iframes end processed |
| Shahid.VisitPlayerFrame | Shahid/src/main/kotlin/com/Shahid/Shahid.kt:317-323 | computes the player-iframe step |
| Shahid.PlayerStage | Shahid/src/main/kotlin/com/Shahid/Shahid.kt:290-329 | computes stage 2 |
| Shahid.LoadLinks | Shahid/src/main/kotlin/com/Shahid/Shahid.kt:235-354 | `false` with no trace when the page fails; otherwise the `hasLinks` and trace of the three stages |
| Shahid.StagesIframes | Shahid/src/main/kotlin/com/Shahid/Shahid.kt:254-287 | after stage 1 the run is ordered up to the iframe stage |
| Shahid.StagesPlayer | Shahid/src/main/kotlin/com/Shahid/Shahid.kt:290-329 | after stage 2 it is ordered up to the player-iframe stage |
| Shahid.StagesScripts | Shahid/src/main/kotlin/com/Shahid/Shahid.kt:332-351 | after stage 3 it is ordered up to the script stage |
| Shahid.LoadLinksInv | Shahid/src/main/kotlin/com/Shahid/Shahid.kt:253-351 | a run keeps the invariant; events come iframes → player → player iframes → scripts |
| Shahid.LoadLinksCoverage | Shahid/src/main/kotlin/com/Shahid/Shahid.kt:253-351 | every allowed main-page iframe and script URL ends processed, whatever the player stage did |
| Shahid.LoadLinksFilters | Shahid/src/main/kotlin/com/Shahid/Shahid.kt:257 | no blank, Google or Facebook frame of the page reaches `loadExtractor` in the iframe stage |
| Shahid.InlineKeys | Shahid/src/main/kotlin/com/Shahid/Shahid.kt:182 | both inline keys contain `حلقة` |
| Shahid.InlineKeep | Shahid/src/main/kotlin/com/Shahid/Shahid.kt:176-191 | an inline link is kept iff it is not the page and its title contains `حلقة`; the kept name is the title |
| Shahid.SeriesNumberNeedsKey | Shahid/src/main/kotlin/com/Shahid/Shahid.kt:138 | a series-page number needs `حلقة` in the title |
| Shahid.SeriesKeepsAll | Shahid/src/main/kotlin/com/Shahid/Shahid.kt:133-146 | a series page keeps every link, with its resolved link, trimmed text and parsed number |
| Shahid.CollectedEpisodes | Shahid/src/main/kotlin/com/Shahid/Shahid.kt:131-194 | series pages keep all links; a watch page takes its series page's episodes, and its inline links only when those are none; other pages list nothing; inline episodes are never the page and name an episode |
| Shahid.SeriesPageEpisodes | Shahid/src/main/kotlin/com/Shahid/Shahid.kt:150-172 | no series link or a failed request gives nothing; otherwise one episode per link of the series page, so something iff it lists a link |
| Shahid.SeriesNumberReads | Shahid/src/main/kotlin/com/Shahid/Shahid.kt:137-140 | a series title's number is the capture of the first of its three alternatives at the leftmost position one matches, or null |
| Shahid.InlineNumberReads | Shahid/src/main/kotlin/com/Shahid/Shahid.kt:181-184 | an inline title's number is the capture of the first of its two alternatives at the leftmost position one matches, or null |
| Shahid.EpisodeListProps | Shahid/src/main/kotlin/com/Shahid/Shahid.kt:197-200 | unique `data`, sorted with nulls first, only collected episodes, each collected link kept, and the kept ones are the first of each link in sorted order |
| Shahid.LoadResultKind | Shahid/src/main/kotlin/com/Shahid/Shahid.kt:202-213 | a series iff the page was fetched and some episode collected; otherwise a movie whose data is the page URL |
| Shahid.SeriesLinks | Shahid/src/main/kotlin/com/Shahid/Shahid.kt:133-146 | the series `forEach` appends the episodes of all links |
| Shahid.InlineLinks | Shahid/src/main/kotlin/com/Shahid/Shahid.kt:176-192 | the inline `forEach` computes the kept inline episodes |
| Shahid.LoadEpisodes | Shahid/src/main/kotlin/com/Shahid/Shahid.kt:128-200 | the branches, loops, sort and dedup compute the episode list |

## Left out

- HTTP and the DOM are left out. `app.get`, jsoup's `select`/`attr`/`text`/`html` and
  CSS selectors are not modelled. A fetched page is the lists of values the
  selectors pick out, in document order. A failed request is `None`.
- `jsoup` text normalisation is left out. `text()` is taken as given, and only `trim()` is modelled.
- `loadExtractor` is an oracle that returns its verdict. The links it hands
  to `callback` itself are not in the trace. It is assumed not to throw.
  If it threw in the downloads stage, the code would end that stage.
- `android.util.Base64.decode` with `String(…)` is a partial oracle.
- `fixUrl` is an oracle. `newEpisode`, `newExtractorLink`, the response
  builders, `Qualities` (always `Unknown`), `Log`, `subtitleCallback`,
  `isCasting` and coroutine cancellation are not modelled.
- Shahid.PlayerFrames: the request is deterministic. The code sends a
  second request for the player page (the document for iframes), and the
  model reuses the response of the first. It does not model that second
  request failing on its own, after the first one succeeded.
- The title, poster, description, year and genre lookups of `load` and
  `toSearchResult` are not modelled. Neither is the `distinctBy { it.url }`
  of `getMainPage` and `search`. These are selector chains.
- Eishq.WatchPayloadRoundTrip: stated for every URL without `"`. For
  example, `{"v":"https:\/\/h\/a.m3u8"}` yields `https://h/a.m3u8`. That
  instance is covered by the general lemma and is not evaluated as a literal.
- PrimaryEpisode: an episode's `data` is the URL handed to `newEpisode`,
  taken verbatim. The host library's `newEpisode` is not part of this
  model. If it resolves its argument with `fixUrl`, `distinctBy { it.data }`
  (Eishq.kt:181, Shahid.kt:200) compares resolved URLs. A relative and an
  absolute link to the same page would then collapse into one episode in
  the program, but stay two in the model. The same holds for
  FallbackEpisode, SeriesEpisode and InlineEpisode, whose links are already
  resolved once and would be resolved a second time.
- IsDigit: `\d` and the digits read by `toIntOrNull` are the ASCII digits
  `0`-`9`. On Android, `java.util.regex` is built on ICU, where `\d` also
  matches other Unicode decimal digits, such as the Arabic-Indic `٠`-`٩`,
  and `toIntOrNull` reads those too. An Arabic title numbered with such
  digits has a number in the program and none in the model.
- IsRegexSpace: `\s` is the ASCII class `[ \t\n\x0B\f\r]`. The
  Unicode spaces that ICU's `\s` also matches are not spaces here.
- Characters are Unicode scalar values and the text is not normalised.
  The plugins' text is ASCII or Arabic, which UTF-16 represents the same way.
