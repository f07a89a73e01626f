/**
 * The stream-link search both providers run in `loadLinks`.  The page is
 * fetched once and seen only through the values the selectors pick out of
 * it; HTTP requests, `loadExtractor` and the Base64 decoder are oracles in
 * `Host`.  A run keeps the mutable set `processedUrls`, the flag `hasLinks`
 * and, here, a trace of everything it does: every successful
 * `processedUrls.add`, every `loadExtractor` call with its verdict, every
 * request and every link handed to `callback`.
 *
 * Each stage is a step function folded over the stage's input list; the
 * imperative stage methods are proved to compute those folds.  `Inv` is
 * what every step preserves: `processedUrls` is exactly the set of claimed
 * URLs, `hasLinks` records whether something succeeded, and every use of a
 * URL directly follows its own claim.
 */
module Links {
  import opened Options
  import opened Text
  import opened VideoUrl

  datatype LinkType = M3U8 | VIDEO

  /** `newExtractorLink(source, name, url, type) { referer = … }`; the quality is always `Qualities.Unknown`. */
  datatype Link = Link(source: string, name: string, url: string, kind: LinkType, referer: string)

  /** `if (url.contains(".m3u8")) ExtractorLinkType.M3U8 else ExtractorLinkType.VIDEO`. */
  function KindOf(url: string): LinkType {
    if Contains(url, ".m3u8") then M3U8 else VIDEO
  }

  /**
   * A fetched page as the stages see it: its text, the `value` of each
   * `input[name=watch]`, the `href` of each downloads-table link, the `src`
   * of each `iframe[src]` and the `html()` of each `script`, in document order.
   */
  datatype Page = Page(text: string, watchValues: seq<string>, downloadHrefs: seq<string>,
                       iframeSrcs: seq<string>, scripts: seq<string>)

  /**
   * What the providers call but do not define: `app.get(url, referer)`
   * (None when it throws), `loadExtractor(url, referer, …)` and
   * `String(Base64.decode(value, DEFAULT))` (None when it throws).
   */
  datatype Host = Host(get: (string, string) -> Option<Page>,
                       extract: (string, string) -> bool,
                       decode: string -> Option<string>)

  /** The stages, in the order `loadLinks` runs them. */
  datatype Stage = Watch | Downloads | Iframes | Player | PlayerIframes | Scripts

  function Rank(s: Stage): nat {
    match s
    case Watch => 0
    case Downloads => 1
    case Iframes => 2
    case Player => 3
    case PlayerIframes => 4
    case Scripts => 5
  }

  datatype Event =
    | Claim(stage: Stage, url: string)              // `processedUrls.add(url)` returned true
    | Extract(stage: Stage, url: string, ok: bool)  // `loadExtractor(url, …)` returned `ok`
    | Fetch(stage: Stage, url: string, ok: bool)    // `app.get(url, …)`; `ok` is false when it threw
    | Emit(stage: Stage, link: Link)                // `callback(link)`

  datatype State = State(processed: set<string>, hasLinks: bool, trace: seq<Event>)

  /** `processedUrls = mutableSetOf()`, `hasLinks = false`. */
  const Start: State := State({}, false, [])

  predicate Success(e: Event) {
    e.Emit? || (e.Extract? && e.ok)
  }

  /** Records one event: a claim adds its URL to `processedUrls`, a success sets `hasLinks`. */
  function Record(st: State, e: Event): State {
    State(if e.Claim? then st.processed + {e.url} else st.processed, st.hasLinks || Success(e), st.trace + [e])
  }

  // ---- The invariant -----------------------------------------------------

  ghost function Claimed(t: seq<Event>): set<string> {
    if t == [] then {} else Claimed(t[..|t| - 1]) + (if t[|t| - 1].Claim? then {t[|t| - 1].url} else {})
  }

  ghost function Succeeded(t: seq<Event>): bool {
    if t == [] then false else Succeeded(t[..|t| - 1]) || Success(t[|t| - 1])
  }

  /** The stages that fetch a URL themselves when `loadExtractor` gives up on it. */
  predicate Fallback(s: Stage) {
    s == Watch || s == Iframes
  }

  /**
   * `e` may follow the events `t`: a claim is of a new, non-blank URL; a
   * `loadExtractor` call and a link directly follow the claim of their URL;
   * a fallback fetch directly follows the refusal of its URL and the player
   * fetch its claim; every link is an accepted `findVideoUrl` result whose
   * type follows its extension.
   */
  ghost predicate Follows(t: seq<Event>, e: Event) {
    match e
    case Claim(_, u) => !IsBlank(u) && u !in Claimed(t)
    case Extract(s, u, _) => |t| > 0 && t[|t| - 1] == Claim(s, u)
    case Fetch(s, u, _) =>
      && (Fallback(s) ==> |t| > 0 && t[|t| - 1] == Extract(s, u, false))
      && (s == Player ==> |t| > 0 && t[|t| - 1] == Claim(s, u))
    case Emit(s, l) =>
      && |t| > 0 && t[|t| - 1] == Claim(s, l.url)
      && Accepted(l.url) && NoQuote(l.url) && l.kind == KindOf(l.url)
  }

  ghost predicate WellFormed(t: seq<Event>) {
    t == [] || (WellFormed(t[..|t| - 1]) && Follows(t[..|t| - 1], t[|t| - 1]))
  }

  ghost predicate Inv(st: State) {
    && st.processed == Claimed(st.trace)
    && st.hasLinks == Succeeded(st.trace)
    && WellFormed(st.trace)
  }

  /** `r` continues `st` with events of stage `s` only, keeping every claim and every success. */
  ghost predicate Extends(st: State, r: State, s: Stage) {
    && |st.trace| <= |r.trace| && r.trace[..|st.trace|] == st.trace
    && (forall k :: |st.trace| <= k < |r.trace| ==> r.trace[k].stage == s)
    && st.processed <= r.processed
    && (st.hasLinks ==> r.hasLinks)
  }

  /** The events `r` adds to `st` hand `loadExtractor` only URLs that `admit` accepts. */
  ghost predicate ExtractsOnly(st: State, r: State, admit: string -> bool) {
    forall k :: |st.trace| <= k < |r.trace| && r.trace[k].Extract? ==> admit(r.trace[k].url)
  }

  /** The events `r` adds to `st` hand `loadExtractor` only the URL `u`. */
  ghost predicate ExtractsOf(st: State, r: State, u: string) {
    forall k :: |st.trace| <= k < |r.trace| && r.trace[k].Extract? ==> r.trace[k].url == u
  }

  lemma StartInv()
    ensures Inv(Start)
  {
  }

  /** Recording an event that may follow the trace keeps the invariant. */
  lemma RecordInv(st: State, e: Event)
    requires Inv(st) && Follows(st.trace, e)
    ensures Inv(Record(st, e)) && Extends(st, Record(st, e), e.stage)
  {
    var t := Record(st, e).trace;
    assert t[..|t| - 1] == st.trace;
  }

  lemma ExtendsRefl(st: State, s: Stage)
    ensures Extends(st, st, s)
  {
  }

  lemma ExtendsTrans(a: State, b: State, c: State, s: Stage)
    requires Extends(a, b, s) && Extends(b, c, s)
    ensures Extends(a, c, s)
  {
    assert c.trace[..|a.trace|] == c.trace[..|b.trace|][..|a.trace|];
    forall k | |a.trace| <= k < |c.trace| ensures c.trace[k].stage == s {
      if k < |b.trace| {
        assert c.trace[k] == c.trace[..|b.trace|][k] == b.trace[k];
      }
    }
  }

  /** Every `loadExtractor` call of stage `s` in `t` is on a URL that `admit` accepts. */
  ghost predicate StageExtractsOnly(t: seq<Event>, s: Stage, admit: string -> bool) {
    forall k :: 0 <= k < |t| && t[k].Extract? && t[k].stage == s ==> admit(t[k].url)
  }

  /** A stage other than `s`, or stage `s` extracting only admitted URLs, keeps `StageExtractsOnly`. */
  lemma StageExtractsStep(a: State, b: State, s0: Stage, s: Stage, admit: string -> bool)
    requires StageExtractsOnly(a.trace, s, admit) && Extends(a, b, s0)
    requires s0 == s ==> ExtractsOnly(a, b, admit)
    ensures StageExtractsOnly(b.trace, s, admit)
  {
    ExtendsKeeps(a, b, s0);
  }

  /** A continuation keeps every event it started from. */
  lemma ExtendsKeeps(a: State, b: State, s: Stage)
    requires Extends(a, b, s)
    ensures forall k :: 0 <= k < |a.trace| ==> b.trace[k] == a.trace[k]
  {
    forall k | 0 <= k < |a.trace| ensures b.trace[k] == a.trace[k] {
      assert b.trace[k] == b.trace[..|a.trace|][k];
    }
  }

  lemma ExtractsOnlyTrans(a: State, b: State, c: State, s: Stage, admit: string -> bool)
    requires Extends(a, b, s) && Extends(b, c, s)
    requires ExtractsOnly(a, b, admit) && ExtractsOnly(b, c, admit)
    ensures ExtractsOnly(a, c, admit)
  {
    forall k | |a.trace| <= k < |b.trace| ensures c.trace[k] == b.trace[k] {
      assert c.trace[k] == c.trace[..|b.trace|][k];
    }
  }

  lemma ExtractsOfTrans(a: State, b: State, c: State, s: Stage, u: string)
    requires Extends(a, b, s) && Extends(b, c, s)
    requires ExtractsOf(a, b, u) && ExtractsOf(b, c, u)
    ensures ExtractsOf(a, c, u)
  {
    forall k | |a.trace| <= k < |b.trace| ensures c.trace[k] == b.trace[k] {
      assert c.trace[k] == c.trace[..|b.trace|][k];
    }
  }

  // ---- Steps shared by the stages ----------------------------------------

  /** A `findVideoUrl` result `u`: claimed and handed to `callback`, unless already processed. */
  function EmitFound(st: State, s: Stage, site: string, tag: string, u: string, referer: string): State
  {
    if u in st.processed then st
    else Record(Record(st, Claim(s, u)), Emit(s, Link(site, site + " - " + tag, u, KindOf(u), referer)))
  }

  /** `findVideoUrl(text)?.let { … }`: the URL found, if any, is emitted with label `tag`. */
  function Scan(st: State, s: Stage, site: string, tag: string, text: string, referer: string): State
  {
    match FindVideoUrl(text)
    case None => st
    case Some(u) => EmitFound(st, s, site, tag, u, referer)
  }

  /**
   * A claimed URL `u` goes to `loadExtractor`; if that reports nothing, `u`
   * is fetched with referer `data` and its text scanned with `findVideoUrl`,
   * the link carrying `u` as referer.  A failed fetch ends the step.
   */
  function ExtractOrScan(st: State, host: Host, s: Stage, site: string, tag: string, u: string, data: string): State
  {
    var ok := host.extract(u, data);
    var st1 := Record(st, Extract(s, u, ok));
    if ok then st1
    else
      var resp := host.get(u, data);
      var st2 := Record(st1, Fetch(s, u, resp.Some?));
      if resp.None? then st2 else Scan(st2, s, site, tag, resp.value.text, u)
  }

  /** A claimed URL `u` only goes to `loadExtractor` (downloads links, player-page iframes). */
  function ExtractOnly(st: State, host: Host, s: Stage, u: string, data: string): State
  {
    Record(Record(st, Claim(s, u)), Extract(s, u, host.extract(u, data)))
  }

  lemma EmitFoundInv(st: State, s: Stage, site: string, tag: string, u: string, referer: string)
    requires Inv(st) && Accepted(u) && NoQuote(u)
    ensures var r := EmitFound(st, s, site, tag, u, referer);
      Inv(r) && Extends(st, r, s) && u in r.processed
  {
    if u !in st.processed {
      var st1 := Record(st, Claim(s, u));
      RecordInv(st, Claim(s, u));
      var e := Emit(s, Link(site, site + " - " + tag, u, KindOf(u), referer));
      RecordInv(st1, e);
      ExtendsTrans(st, st1, Record(st1, e), s);
    }
  }

  /** A scan keeps the invariant and leaves the URL it found, if any, processed. */
  lemma ScanInv(st: State, s: Stage, site: string, tag: string, text: string, referer: string)
    requires Inv(st)
    ensures var r := Scan(st, s, site, tag, text, referer);
      && Inv(r) && Extends(st, r, s)
      && (FindVideoUrl(text).Some? ==> FindVideoUrl(text).value in r.processed)
  {
    FindVideoUrlNone(text);
    if FindVideoUrl(text).Some? {
      EmitFoundInv(st, s, site, tag, FindVideoUrl(text).value, referer);
    }
  }

  lemma ExtractOrScanInv(st: State, host: Host, s: Stage, site: string, tag: string, u: string, data: string)
    requires Inv(st) && Fallback(s) && |st.trace| > 0 && st.trace[|st.trace| - 1] == Claim(s, u)
    ensures var r := ExtractOrScan(st, host, s, site, tag, u, data);
      Inv(r) && Extends(st, r, s) && st.processed <= r.processed
  {
    var ok := host.extract(u, data);
    var st1 := Record(st, Extract(s, u, ok));
    RecordInv(st, Extract(s, u, ok));
    if !ok {
      var resp := host.get(u, data);
      var st2 := Record(st1, Fetch(s, u, resp.Some?));
      RecordInv(st1, Fetch(s, u, resp.Some?));
      ExtendsTrans(st, st1, st2, s);
      if resp.Some? {
        ScanInv(st2, s, site, tag, resp.value.text, u);
        ExtendsTrans(st, st2, Scan(st2, s, site, tag, resp.value.text, u), s);
      }
    }
  }

  /** A scan adds a claim and a link, or nothing: it never calls `loadExtractor`. */
  lemma ScanEvents(st: State, s: Stage, site: string, tag: string, text: string, referer: string)
    ensures var r := Scan(st, s, site, tag, text, referer);
      && |st.trace| <= |r.trace| && r.trace[..|st.trace|] == st.trace
      && forall k :: |st.trace| <= k < |r.trace| ==> !r.trace[k].Extract?
  {
  }

  /** `u` is the first URL `ExtractOrScan` hands to `loadExtractor`, and the only one. */
  lemma ExtractOrScanEvents(st: State, host: Host, s: Stage, site: string, tag: string, u: string, data: string)
    ensures var r := ExtractOrScan(st, host, s, site, tag, u, data);
      && |r.trace| > |st.trace| && r.trace[..|st.trace|] == st.trace
      && r.trace[|st.trace|] == Extract(s, u, host.extract(u, data))
      && ExtractsOf(st, r, u)
  {
    var ok := host.extract(u, data);
    var st1 := Record(st, Extract(s, u, ok));
    if !ok {
      var resp := host.get(u, data);
      var st2 := Record(st1, Fetch(s, u, resp.Some?));
      if resp.Some? {
        var r := Scan(st2, s, site, tag, resp.value.text, u);
        ScanEvents(st2, s, site, tag, resp.value.text, u);
        assert r.trace[..|st.trace|] == r.trace[..|st2.trace|][..|st.trace|];
        forall k | |st.trace| <= k < |st2.trace| ensures r.trace[k] == st2.trace[k] {
          assert r.trace[k] == r.trace[..|st2.trace|][k];
        }
      }
    }
  }

  lemma ExtractOnlyInv(st: State, host: Host, s: Stage, u: string, data: string)
    requires Inv(st) && !IsBlank(u) && u !in st.processed
    ensures var r := ExtractOnly(st, host, s, u, data);
      Inv(r) && Extends(st, r, s) && u in r.processed
  {
    var st1 := Record(st, Claim(s, u));
    RecordInv(st, Claim(s, u));
    RecordInv(st1, Extract(s, u, host.extract(u, data)));
    ExtendsTrans(st, st1, ExtractOnly(st, host, s, u, data), s);
  }

  // ---- The iframe stage ----------------------------------------------------

  /** A protocol-relative `src` (starting `//`) gets the `https:` scheme. */
  function NormalizeSrc(src: string): (r: string)
  {
    if StartsWith(src, "//") then "https:" + src else src
  }

  /** Normalising twice changes nothing, and the result is never protocol-relative. */
  lemma NormalizeSrcIdempotent(src: string)
    ensures NormalizeSrc(NormalizeSrc(src)) == NormalizeSrc(src)
    ensures !StartsWith(NormalizeSrc(src), "//")
    ensures StartsWith(src, "//") ==> NormalizeSrc(src)[6..] == src
    ensures !StartsWith(src, "//") ==> NormalizeSrc(src) == src
  {
    if StartsWith(src, "//") {
      assert NormalizeSrc(src)[..2] == "ht";
    }
  }

  /** The main-page iframe filter: not blank, not a Google or Facebook frame. */
  predicate IframeAllowed(src: string) {
    !IsBlank(src) && !Contains(src, "google") && !Contains(src, "facebook")
  }

  function IframeStep(st: State, host: Host, site: string, data: string, raw: string): State
  {
    var src := NormalizeSrc(raw);
    if IframeAllowed(src) && src !in st.processed then
      ExtractOrScan(Record(st, Claim(Iframes, src)), host, Iframes, site, "iframe", src, data)
    else st
  }

  /** `document.select("iframe[src]").forEach { … }`. */
  function IframesFold(st: State, host: Host, site: string, data: string, srcs: seq<string>): State
    decreases |srcs|
  {
    if srcs == [] then st
    else IframeStep(IframesFold(st, host, site, data, srcs[..|srcs| - 1]), host, site, data, srcs[|srcs| - 1])
  }

  lemma IframeStepInv(st: State, host: Host, site: string, data: string, raw: string)
    requires Inv(st)
    ensures var r := IframeStep(st, host, site, data, raw);
      && Inv(r) && Extends(st, r, Iframes)
      && (IframeAllowed(NormalizeSrc(raw)) ==> NormalizeSrc(raw) in r.processed)
  {
    var src := NormalizeSrc(raw);
    if IframeAllowed(src) && src !in st.processed {
      var st1 := Record(st, Claim(Iframes, src));
      RecordInv(st, Claim(Iframes, src));
      ExtractOrScanInv(st1, host, Iframes, site, "iframe", src, data);
      ExtendsTrans(st, st1, IframeStep(st, host, site, data, raw), Iframes);
    }
  }

  /**
   * One iframe: a new, allowed `src` is claimed and handed to
   * `loadExtractor` right away, and is the only URL handed to it; a blank,
   * Google, Facebook or already processed `src` leaves the state as it was.
   */
  lemma IframeStepEvents(st: State, host: Host, site: string, data: string, raw: string)
    ensures var r := IframeStep(st, host, site, data, raw);
      var src := NormalizeSrc(raw);
      && (IframeAllowed(src) && src !in st.processed ==>
            && |r.trace| > |st.trace| + 1 && r.trace[|st.trace|] == Claim(Iframes, src)
            && r.trace[|st.trace| + 1] == Extract(Iframes, src, host.extract(src, data)))
      && (!(IframeAllowed(src) && src !in st.processed) ==> r == st)
      && ExtractsOf(st, r, src) && ExtractsOnly(st, r, IframeAllowed)
  {
    var src := NormalizeSrc(raw);
    if IframeAllowed(src) && src !in st.processed {
      var st1 := Record(st, Claim(Iframes, src));
      var r := IframeStep(st, host, site, data, raw);
      ExtractOrScanEvents(st1, host, Iframes, site, "iframe", src, data);
      assert r.trace[|st.trace|] == r.trace[..|st1.trace|][|st.trace|];
    }
  }

  /**
   * The iframe stage keeps the invariant, adds only iframe-stage events,
   * and leaves every allowed, normalised `src` processed: each was handed to
   * `loadExtractor` in this stage or had been used before.  No blank,
   * Google or Facebook frame is ever handed to `loadExtractor`.
   */
  lemma {:induction false} IframesFoldInv(st: State, host: Host, site: string, data: string, srcs: seq<string>)
    requires Inv(st)
    ensures var r := IframesFold(st, host, site, data, srcs);
      && Inv(r) && Extends(st, r, Iframes) && ExtractsOnly(st, r, IframeAllowed)
      && forall k :: 0 <= k < |srcs| && IframeAllowed(NormalizeSrc(srcs[k])) ==> NormalizeSrc(srcs[k]) in r.processed
    decreases |srcs|
  {
    if srcs == [] {
      ExtendsRefl(st, Iframes);
    } else {
      var init := srcs[..|srcs| - 1];
      var mid := IframesFold(st, host, site, data, init);
      IframesFoldInv(st, host, site, data, init);
      IframeStepInv(mid, host, site, data, srcs[|srcs| - 1]);
      IframeStepEvents(mid, host, site, data, srcs[|srcs| - 1]);
      ExtendsTrans(st, mid, IframesFold(st, host, site, data, srcs), Iframes);
      ExtractsOnlyTrans(st, mid, IframesFold(st, host, site, data, srcs), Iframes, IframeAllowed);
      forall k | 0 <= k < |srcs| - 1 ensures srcs[k] == init[k] { }
    }
  }

  /** `findVideoUrl(text)?.let { if (processedUrls.add(it)) callback(…) }`. */
  method ScanText(st: State, s: Stage, site: string, tag: string, text: string, referer: string) returns (r: State)
    ensures r == Scan(st, s, site, tag, text, referer)
  {
    r := st;
    var found := FindVideoUrlLoop(text);
    if found.Some? && found.value !in r.processed {
      var u := found.value;
      r := State(r.processed + {u}, r.hasLinks, r.trace + [Claim(s, u)]);
      r := State(r.processed, true, r.trace + [Emit(s, Link(site, site + " - " + tag, u, KindOf(u), referer))]);
    }
  }

  /** `loadExtractor(u)`, then, when it found nothing, a fetch of `u` and a scan of its text. */
  method TryExtractor(st: State, host: Host, s: Stage, site: string, tag: string, u: string, data: string) returns (r: State)
    ensures r == ExtractOrScan(st, host, s, site, tag, u, data)
  {
    var ok := host.extract(u, data);
    r := State(st.processed, st.hasLinks || ok, st.trace + [Extract(s, u, ok)]);
    if !ok {
      var resp := host.get(u, data);
      r := State(r.processed, r.hasLinks, r.trace + [Fetch(s, u, resp.Some?)]);
      if resp.Some? {
        r := ScanText(r, s, site, tag, resp.value.text, u);
      }
    }
  }

  /** One `iframe[src]` of the page. */
  method VisitIframe(st: State, host: Host, site: string, data: string, raw: string) returns (r: State)
    ensures r == IframeStep(st, host, site, data, raw)
  {
    r := st;
    var src := raw;
    if StartsWith(src, "//") {
      src := "https:" + src;
    }
    if !IsBlank(src) && !Contains(src, "google") && !Contains(src, "facebook") && src !in r.processed {
      r := State(r.processed + {src}, r.hasLinks, r.trace + [Claim(Iframes, src)]);
      r := TryExtractor(r, host, Iframes, site, "iframe", src, data);
    }
  }

  method IframesStage(st: State, host: Host, site: string, data: string, srcs: seq<string>) returns (r: State)
    ensures r == IframesFold(st, host, site, data, srcs)
  {
    r := st;
    for i := 0 to |srcs|
      invariant r == IframesFold(st, host, site, data, srcs[..i])
    {
      assert srcs[..i + 1][..i] == srcs[..i];
      r := VisitIframe(r, host, site, data, srcs[i]);
    }
    assert srcs[..|srcs|] == srcs;
  }

  // ---- The script stage ----------------------------------------------------

  function ScriptStep(st: State, site: string, data: string, script: string): State
  {
    Scan(st, Scripts, site, "Script", script, data)
  }

  /** `document.select("script").forEach { … }`: links carry the page URL as referer. */
  function ScriptsFold(st: State, site: string, data: string, scripts: seq<string>): State
    decreases |scripts|
  {
    if scripts == [] then st
    else ScriptStep(ScriptsFold(st, site, data, scripts[..|scripts| - 1]), site, data, scripts[|scripts| - 1])
  }

  /**
   * The script stage keeps the invariant, adds only script-stage events, and
   * leaves every URL `findVideoUrl` finds in a script processed.
   */
  lemma {:induction false} ScriptsFoldInv(st: State, site: string, data: string, scripts: seq<string>)
    requires Inv(st)
    ensures var r := ScriptsFold(st, site, data, scripts);
      && Inv(r) && Extends(st, r, Scripts)
      && forall k :: 0 <= k < |scripts| && FindVideoUrl(scripts[k]).Some? ==> FindVideoUrl(scripts[k]).value in r.processed
    decreases |scripts|
  {
    if scripts == [] {
      ExtendsRefl(st, Scripts);
    } else {
      var init := scripts[..|scripts| - 1];
      var mid := ScriptsFold(st, site, data, init);
      ScriptsFoldInv(st, site, data, init);
      ScanInv(mid, Scripts, site, "Script", scripts[|scripts| - 1], data);
      ExtendsTrans(st, mid, ScriptsFold(st, site, data, scripts), Scripts);
      forall k | 0 <= k < |scripts| - 1 ensures scripts[k] == init[k] { }
    }
  }

  method ScriptsStage(st: State, site: string, data: string, scripts: seq<string>) returns (r: State)
    ensures r == ScriptsFold(st, site, data, scripts)
  {
    r := st;
    for i := 0 to |scripts|
      invariant r == ScriptsFold(st, site, data, scripts[..i])
    {
      assert scripts[..i + 1][..i] == scripts[..i];
      r := ScanText(r, Scripts, site, "Script", scripts[i], data);
    }
    assert scripts[..|scripts|] == scripts;
  }

  // ---- What the invariant gives -------------------------------------------

  /** The links handed to `callback`, in order. */
  function Emitted(t: seq<Event>): seq<Link> {
    if t == [] then [] else Emitted(t[..|t| - 1]) + (if t[|t| - 1].Emit? then [t[|t| - 1].link] else [])
  }

  /** Handing a URL to `loadExtractor` or `callback` uses it. */
  predicate Uses(e: Event) {
    e.Extract? || e.Emit?
  }

  function UsedUrl(e: Event): string
    requires Uses(e)
  {
    if e.Extract? then e.url else e.link.url
  }

  lemma {:induction false} ClaimedHas(t: seq<Event>, k: nat)
    requires k < |t| && t[k].Claim?
    ensures t[k].url in Claimed(t)
    decreases |t|
  {
    if k < |t| - 1 {
      ClaimedHas(t[..|t| - 1], k);
    }
  }

  lemma {:induction false} WellFormedPrefix(t: seq<Event>, n: nat)
    requires WellFormed(t) && n <= |t|
    ensures WellFormed(t[..n])
    decreases |t| - n
  {
    if n == |t| {
      assert t[..n] == t;
    } else {
      assert WellFormed(t[..|t| - 1]);
      WellFormedPrefix(t[..|t| - 1], n);
      assert t[..|t| - 1][..n] == t[..n];
    }
  }

  /** In a well-formed trace no URL is claimed twice. */
  lemma {:induction false} ClaimsDistinct(t: seq<Event>)
    requires WellFormed(t)
    ensures forall i, j :: 0 <= i < j < |t| && t[i].Claim? && t[j].Claim? ==> t[i].url != t[j].url
    decreases |t|
  {
    if t != [] {
      var p := t[..|t| - 1];
      ClaimsDistinct(p);
      forall i, j | 0 <= i < j < |t| && t[i].Claim? && t[j].Claim? ensures t[i].url != t[j].url {
        if j == |t| - 1 {
          ClaimedHas(p, i);
        } else {
          assert t[i] == p[i] && t[j] == p[j];
        }
      }
    }
  }

  /** Every use of a URL directly follows its own claim. */
  lemma {:induction false} UsesFollowClaims(t: seq<Event>)
    requires WellFormed(t)
    ensures forall k :: 0 <= k < |t| && Uses(t[k]) ==> k > 0 && t[k - 1] == Claim(t[k].stage, UsedUrl(t[k]))
    decreases |t|
  {
    if t != [] {
      var p := t[..|t| - 1];
      UsesFollowClaims(p);
      forall k | 0 <= k < |t| - 1 ensures t[k] == p[k] { }
    }
  }

  /**
   * No URL is handed to `loadExtractor` or `callback` twice, nor to both:
   * each use follows a claim of its URL, and no URL is claimed twice.
   */
  lemma NoUrlUsedTwice(t: seq<Event>)
    requires WellFormed(t)
    ensures forall i, j :: 0 <= i < j < |t| && Uses(t[i]) && Uses(t[j]) ==> UsedUrl(t[i]) != UsedUrl(t[j])
  {
    ClaimsDistinct(t);
    UsesFollowClaims(t);
    forall i, j | 0 <= i < j < |t| && Uses(t[i]) && Uses(t[j]) ensures UsedUrl(t[i]) != UsedUrl(t[j]) {
      assert t[i - 1].Claim? && t[j - 1].Claim?;
    }
  }

  /** `hasLinks` is true exactly when some link was emitted or some `loadExtractor` call succeeded. */
  lemma {:induction false} SucceededIff(t: seq<Event>)
    ensures Succeeded(t) <==> exists k :: 0 <= k < |t| && Success(t[k])
    decreases |t|
  {
    if t != [] {
      var p := t[..|t| - 1];
      SucceededIff(p);
      forall k | 0 <= k < |t| - 1 ensures t[k] == p[k] { }
    }
  }

  /** Every emitted link is an accepted `findVideoUrl` result without quotes, typed by its extension. */
  lemma {:induction false} EmittedLinksWellTyped(t: seq<Event>)
    requires WellFormed(t)
    ensures forall l :: l in Emitted(t) ==> Accepted(l.url) && NoQuote(l.url) && l.kind == KindOf(l.url)
    decreases |t|
  {
    if t != [] {
      EmittedLinksWellTyped(t[..|t| - 1]);
    }
  }

  /**
   * The result of a `loadLinks` run that keeps the invariant: `hasLinks` is
   * true exactly when some `loadExtractor` call succeeded or some link was
   * handed to `callback`; no URL is handed to those twice; every link handed
   * to `callback` is a `findVideoUrl` result typed by its extension.
   */
  lemma LoadLinksResult(st: State)
    requires Inv(st)
    ensures st.hasLinks <==> exists k :: 0 <= k < |st.trace| && Success(st.trace[k])
    ensures forall i, j :: 0 <= i < j < |st.trace| && Uses(st.trace[i]) && Uses(st.trace[j]) ==>
      UsedUrl(st.trace[i]) != UsedUrl(st.trace[j])
    ensures forall l :: l in Emitted(st.trace) ==> Accepted(l.url) && NoQuote(l.url) && l.kind == KindOf(l.url)
  {
    SucceededIff(st.trace);
    NoUrlUsedTwice(st.trace);
    EmittedLinksWellTyped(st.trace);
  }

  /** A trace built by stages of non-decreasing rank lists its events in stage order. */
  ghost predicate InStageOrder(t: seq<Event>) {
    forall i, j :: 0 <= i < j < |t| ==> Rank(t[i].stage) <= Rank(t[j].stage)
  }

  lemma StageOrderStep(a: State, b: State, s: Stage)
    requires InStageOrder(a.trace) && Extends(a, b, s)
    requires forall k :: 0 <= k < |a.trace| ==> Rank(a.trace[k].stage) <= Rank(s)
    ensures InStageOrder(b.trace)
    ensures forall k :: 0 <= k < |b.trace| ==> Rank(b.trace[k].stage) <= Rank(s)
  {
    forall k | 0 <= k < |a.trace| ensures b.trace[k] == a.trace[k] {
      assert b.trace[k] == b.trace[..|a.trace|][k];
    }
  }

  /** Every event of `t` belongs to one of the stages `ss`. */
  ghost predicate StagesAmong(t: seq<Event>, ss: set<Stage>) {
    forall k :: 0 <= k < |t| ==> t[k].stage in ss
  }

  lemma StagesStep(a: State, b: State, s: Stage, ss: set<Stage>)
    requires StagesAmong(a.trace, ss) && Extends(a, b, s) && s in ss
    ensures StagesAmong(b.trace, ss)
  {
    forall k | 0 <= k < |a.trace| ensures b.trace[k] == a.trace[k] {
      assert b.trace[k] == b.trace[..|a.trace|][k];
    }
  }

  /** `st` keeps the invariant and lists events of stages `ss` in stage order, none later than `s`. */
  ghost predicate OrderedUpTo(st: State, s: Stage, ss: set<Stage>) {
    && Inv(st) && InStageOrder(st.trace) && StagesAmong(st.trace, ss)
    && forall k :: 0 <= k < |st.trace| ==> Rank(st.trace[k].stage) <= Rank(s)
  }

  lemma StartOrdered(s: Stage, ss: set<Stage>)
    ensures OrderedUpTo(Start, s, ss)
  {
  }

  /** A stage that extends a run ordered up to an earlier stage leaves it ordered up to itself. */
  lemma Advance(a: State, b: State, s0: Stage, s: Stage, ss: set<Stage>)
    requires OrderedUpTo(a, s0, ss) && Rank(s0) <= Rank(s) && s in ss
    requires Inv(b) && Extends(a, b, s)
    ensures OrderedUpTo(b, s, ss)
  {
    StageOrderStep(a, b, s);
    StagesStep(a, b, s, ss);
  }
}
