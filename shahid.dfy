/**
 * The provider for w.shahidmosalsalat.me: its page and search URLs, the
 * three stages of `loadLinks` with the `player.php` page, and the episode
 * list of `load` with its watch-page fallback.
 */
module Shahid {
  import opened Options
  import opened Text
  import opened VideoUrl
  import opened Episodes
  import opened Links

  const MainUrl: string := "https://w.shahidmosalsalat.me"
  const Site: string := "شاهد مسلسلات"

  // ---- Page URLs ---------------------------------------------------------

  /** The listing URL of `getMainPage`: the page number is always added, with `&` after an existing query. */
  function MainPageUrl(data: string, page: int): string
  {
    if Contains(data, "?") then MainUrl + "/" + data + "&page=" + IntToString(page)
    else MainUrl + "/" + data + "?page=" + IntToString(page)
  }

  /**
   * Every listing URL is the category path, then `&` exactly when the path
   * already has a query and `?` otherwise, then `page=` and the page's
   * decimal form, which reads back as the page (also for page 1).
   */
  lemma MainPageUrlPage(data: string, page: int)
    requires 0 <= page <= MaxInt
    ensures var sep := if Contains(data, "?") then "&page=" else "?page=";
      MainPageUrl(data, page) == MainUrl + "/" + data + sep + DecimalString(page)
    ensures Contains(MainPageUrl(data, page), "?")
    ensures ToIntOrNull(DecimalString(page)) == Some(page)
  {
    ToIntOrNullRoundTrip(page);
    MainPageUrlQuery(data, page);
  }

  /** A listing URL always carries a query. */
  lemma MainPageUrlQuery(data: string, page: int)
    ensures Contains(MainPageUrl(data, page), "?")
  {
    var lead := MainUrl + "/" + data;
    var sep := if Contains(data, "?") then "&page=" else "?page=";
    if Contains(data, "?") {
      ContainsConcat(MainUrl + "/", data, "?");
    } else {
      assert OccursAt(sep, "?", 0);
    }
    ContainsConcat(lead, sep, "?");
    ContainsConcat(lead + sep, IntToString(page), "?");
    assert MainPageUrl(data, page) == lead + sep + IntToString(page);
  }

  const SearchPrefix: string := "/search.php?keywords="

  /** `query.replace(" ", "+")`. */
  function PlusForSpace(query: string): string {
    ReplaceAll(query, " ", "+")
  }

  function SearchUrl(query: string): string {
    MainUrl + SearchPrefix + PlusForSpace(query)
  }

  /** The keywords keep the query's length and characters, each space turned into `+`. */
  lemma PlusForSpacePointwise(query: string)
    ensures |PlusForSpace(query)| == |query|
    ensures forall k :: 0 <= k < |query| ==> PlusForSpace(query)[k] == if query[k] == ' ' then '+' else query[k]
  {
    if |query| > 0 {
      ReplaceCharAt(query, ' ', '+', 0);
    } else {
      assert PlusForSpace(query) == [];
    }
    forall k | 0 <= k < |query| ensures PlusForSpace(query)[k] == if query[k] == ' ' then '+' else query[k] {
      ReplaceCharAt(query, ' ', '+', k);
    }
  }

  /**
   * The search URL is the search page followed by the keywords, which hold
   * no space; a query without `+` is recovered by turning `+` back into spaces.
   */
  lemma SearchUrlKeywords(query: string)
    ensures SearchUrl(query) == MainUrl + SearchPrefix + PlusForSpace(query)
    ensures ' ' !in PlusForSpace(query)
    ensures '+' !in query ==> ReplaceAll(PlusForSpace(query), "+", " ") == query
  {
    PlusForSpacePointwise(query);
    var kw := PlusForSpace(query);
    if '+' !in query {
      var back := ReplaceAll(kw, "+", " ");
      if |kw| > 0 {
        ReplaceCharAt(kw, '+', ' ', 0);
        forall k | 0 <= k < |kw| ensures back[k] == query[k] {
          ReplaceCharAt(kw, '+', ' ', k);
        }
      } else {
        assert back == [];
      }
    }
  }

  /** `toSearchResult`'s type test, with `&&` binding tighter than `||`. */
  function IsSeries(href: string): bool {
    Contains(href, "view-serie") || Contains(href, "moslslat") || (!Contains(href, "aflam") && !Contains(href, "movie"))
  }

  /**
   * A series page or a series-site link is always a series, whatever else
   * it names; anything else is a movie exactly when it names films.
   */
  lemma IsSeriesPaths(prefix: string, rest: string, href: string)
    ensures IsSeries(prefix + "view-serie" + rest)
    ensures IsSeries(prefix + "moslslat" + rest)
    ensures !Contains(href, "view-serie") && !Contains(href, "moslslat") ==>
      (IsSeries(href) <==> !Contains(href, "aflam") && !Contains(href, "movie"))
  {
    var s := prefix + "view-serie" + rest;
    assert s[|prefix|..|prefix| + 10] == "view-serie";
    assert OccursAt(s, "view-serie", |prefix|);
    var m := prefix + "moslslat" + rest;
    assert m[|prefix|..|prefix| + 8] == "moslslat";
    assert OccursAt(m, "moslslat", |prefix|);
  }

  // ---- The player page -----------------------------------------------------

  predicate IsAlnum(c: char) {
    ('a' <= c <= 'z') || ('A' <= c <= 'Z') || ('0' <= c <= '9')
  }

  predicate AllAlnum(v: string) {
    forall k :: 0 <= k < |v| ==> IsAlnum(v[k])
  }

  /** `vid=([a-zA-Z0-9]+)` matched at `i`: the whole run of letters and digits after `vid=`. */
  function VidAt(s: string, i: nat): (r: Option<string>)
    requires i <= |s|
    ensures r.Some? ==> |r.value| > 0 && AllAlnum(r.value)
  {
    if OccursAt(s, "vid=", i) then
      var j := i + 4;
      var e := SkipWhile(s, j, IsAlnum);
      assert forall k :: 0 <= k < e - j ==> s[j..e][k] == s[j + k];
      if e > j then Some(s[j..e]) else None
    else None
  }

  /** `Regex("vid=([a-zA-Z0-9]+)").find(s)?.groupValues?.get(1)`, searching from `from`. */
  function FindVid(s: string, from: nat): (r: Option<string>)
    requires from <= |s|
    ensures r.Some? ==> |r.value| > 0 && AllAlnum(r.value)
    decreases |s| - from
  {
    match VidAt(s, from)
    case Some(v) => Some(v)
    case None => if from < |s| then FindVid(s, from + 1) else None
  }

  const PlayerPrefix: string := "/player.php?"

  /** `"$mainUrl/player.php?vid=$vid"`. */
  function PlayerUrl(vid: string): string {
    MainUrl + PlayerPrefix + "vid=" + vid
  }

  /** Helper for `PlayerUrlNoEarlierVid`: the lead of a player URL holds no `=`. */
  lemma NoEqualsInLead()
    ensures '=' !in MainUrl + PlayerPrefix + "vid"
  {
    assert '=' !in MainUrl;
    assert '=' !in PlayerPrefix;
  }

  /**
   * Reading the player URL back gives its `vid`: no `vid=` occurs before the
   * one the URL ends with, since the only `=` is the one after it.
   */
  lemma PlayerUrlRoundTrip(vid: string)
    requires |vid| > 0 && AllAlnum(vid)
    ensures FindVid(PlayerUrl(vid), 0) == Some(vid)
  {
    var u := PlayerUrl(vid);
    var n := |MainUrl + PlayerPrefix|;
    PlayerUrlNoEarlierVid(vid);
    VidAtTail(u, n, vid);
    FindVidFrom(u, 0, n);
  }

  /** No `vid=` starts inside the lead of a player URL. */
  lemma PlayerUrlNoEarlierVid(vid: string)
    ensures forall k :: 0 <= k < |MainUrl + PlayerPrefix| ==> VidAt(PlayerUrl(vid), k).None?
    ensures PlayerUrl(vid)[|MainUrl + PlayerPrefix|..] == "vid=" + vid
  {
    var lead := MainUrl + PlayerPrefix + "vid";
    var u := PlayerUrl(vid);
    var n := |MainUrl + PlayerPrefix|;
    assert u == lead + "=" + vid;
    NoEqualsInLead();
    forall k | 0 <= k < n ensures VidAt(u, k).None? {
      assert u[k + 3] == lead[k + 3];
      assert u[k..k + 4][3] == u[k + 3];
    }
  }

  /** A text ending in `vid=` and an alphanumeric run captures that run there. */
  lemma VidAtTail(u: string, n: nat, vid: string)
    requires n <= |u| && u[n..] == "vid=" + vid && |vid| > 0 && AllAlnum(vid)
    ensures VidAt(u, n) == Some(vid)
  {
    assert u[n..n + 4] == "vid=";
    assert u[n + 4..] == vid;
    forall t | n + 4 <= t < |u| ensures IsAlnum(u[t]) {
      assert u[t] == vid[t - (n + 4)];
    }
    SkipWhileUnique(u, n + 4, IsAlnum, |u|);
    assert OccursAt(u, "vid=", n);
    assert u[n + 4..|u|] == vid;
  }

  /** When no match starts before `i`, the search from `from` is the match at `i`. */
  lemma {:induction false} FindVidFrom(s: string, from: nat, i: nat)
    requires from <= i <= |s| && VidAt(s, i).Some?
    requires forall k :: from <= k < i ==> VidAt(s, k).None?
    ensures FindVid(s, from) == VidAt(s, i)
    decreases i - from
  {
    if from < i {
      FindVidFrom(s, from + 1, i);
    }
  }

  /** A player URL is never blank: it starts with the site's scheme. */
  lemma PlayerUrlNotBlank(vid: string)
    ensures !IsBlank(PlayerUrl(vid))
  {
    assert PlayerUrl(vid)[0] == 'h';
  }

  /** A player-page iframe: any new, non-blank `src` goes to `loadExtractor`; there is no host filter here. */
  function PlayerFrameStep(st: State, host: Host, data: string, raw: string): State
  {
    var src := NormalizeSrc(raw);
    if !IsBlank(src) && src !in st.processed then ExtractOnly(st, host, PlayerIframes, src, data) else st
  }

  function PlayerFramesFold(st: State, host: Host, data: string, srcs: seq<string>): State
    decreases |srcs|
  {
    if srcs == [] then st
    else PlayerFrameStep(PlayerFramesFold(st, host, data, srcs[..|srcs| - 1]), host, data, srcs[|srcs| - 1])
  }

  /**
   * The player half of stage 2, after the claim of `playerUrl`: its page is
   * fetched and scanned with `findVideoUrl`; when that fetch fails nothing
   * more happens.
   */
  function PlayerScan(st: State, host: Host, data: string, playerUrl: string): State
  {
    var resp := host.get(playerUrl, data);
    var st1 := Record(st, Fetch(Player, playerUrl, resp.Some?));
    if resp.None? then st1 else Scan(st1, Player, Site, "Player", resp.value.text, playerUrl)
  }

  /** The iframe half: the player page, fetched again as a document, has its iframes handed over. */
  function PlayerFrames(st: State, host: Host, data: string, playerUrl: string): State
    requires host.get(playerUrl, data).Some?
  {
    var st1 := Record(st, Fetch(PlayerIframes, playerUrl, true));
    PlayerFramesFold(st1, host, data, host.get(playerUrl, data).value.iframeSrcs)
  }

  /** Stage 2: only when `data` names a `vid` whose player URL is new. */
  function PlayerPhase(st: State, host: Host, data: string): State
  {
    match FindVid(data, 0)
    case None => st
    case Some(vid) =>
      var u := PlayerUrl(vid);
      if u in st.processed then st
      else
        var st1 := PlayerScan(Record(st, Claim(Player, u)), host, data, u);
        if host.get(u, data).None? then st1 else PlayerFrames(st1, host, data, u)
  }

  /**
   * One player-page iframe keeps the invariant: a new, non-blank `src` is
   * claimed and handed to `loadExtractor`, and ends processed; a blank or
   * already processed one leaves the state as it was.
   */
  lemma PlayerFrameStepInv(st: State, host: Host, data: string, raw: string)
    requires Inv(st)
    ensures var r := PlayerFrameStep(st, host, data, raw);
      var src := NormalizeSrc(raw);
      && Inv(r) && Extends(st, r, PlayerIframes)
      && (!IsBlank(src) ==> src in r.processed)
      && (!IsBlank(src) && src !in st.processed ==>
            r.trace == st.trace + [Claim(PlayerIframes, src), Extract(PlayerIframes, src, host.extract(src, data))])
      && (IsBlank(src) || src in st.processed ==> r == st)
  {
    var src := NormalizeSrc(raw);
    if !IsBlank(src) && src !in st.processed {
      ExtractOnlyInv(st, host, PlayerIframes, src, data);
    } else {
      ExtendsRefl(st, PlayerIframes);
    }
  }

  lemma {:induction false} PlayerFramesFoldInv(st: State, host: Host, data: string, srcs: seq<string>)
    requires Inv(st)
    ensures var r := PlayerFramesFold(st, host, data, srcs);
      && Inv(r) && Extends(st, r, PlayerIframes)
      && forall k :: 0 <= k < |srcs| && !IsBlank(NormalizeSrc(srcs[k])) ==> NormalizeSrc(srcs[k]) in r.processed
    decreases |srcs|
  {
    if srcs == [] {
      ExtendsRefl(st, PlayerIframes);
    } else {
      var init := srcs[..|srcs| - 1];
      var mid := PlayerFramesFold(st, host, data, init);
      PlayerFramesFoldInv(st, host, data, init);
      PlayerFrameStepInv(mid, host, data, srcs[|srcs| - 1]);
      ExtendsTrans(st, mid, PlayerFramesFold(st, host, data, srcs), PlayerIframes);
      forall k | 0 <= k < |srcs| - 1 ensures srcs[k] == init[k] { }
    }
  }

  lemma PlayerScanInv(st: State, host: Host, data: string, u: string)
    requires Inv(st) && |st.trace| > 0 && st.trace[|st.trace| - 1] == Claim(Player, u)
    ensures var r := PlayerScan(st, host, data, u);
      && Inv(r) && Extends(st, r, Player)
      && |r.trace| > |st.trace| && r.trace[|st.trace|] == Fetch(Player, u, host.get(u, data).Some?)
  {
    var resp := host.get(u, data);
    var st1 := Record(st, Fetch(Player, u, resp.Some?));
    RecordInv(st, Fetch(Player, u, resp.Some?));
    if resp.Some? {
      var r := Scan(st1, Player, Site, "Player", resp.value.text, u);
      ScanInv(st1, Player, Site, "Player", resp.value.text, u);
      ExtendsTrans(st, st1, r, Player);
      assert r.trace[|st.trace|] == r.trace[..|st1.trace|][|st.trace|];
    }
  }

  lemma PlayerFramesInv(st: State, host: Host, data: string, u: string)
    requires Inv(st) && host.get(u, data).Some?
    ensures var r := PlayerFrames(st, host, data, u);
      && Inv(r) && Extends(st, r, PlayerIframes)
      && forall src :: src in host.get(u, data).value.iframeSrcs && !IsBlank(NormalizeSrc(src)) ==> NormalizeSrc(src) in r.processed
  {
    var st1 := Record(st, Fetch(PlayerIframes, u, true));
    RecordInv(st, Fetch(PlayerIframes, u, true));
    PlayerFramesFoldInv(st1, host, data, host.get(u, data).value.iframeSrcs);
    ExtendsTrans(st, st1, PlayerFrames(st, host, data, u), PlayerIframes);
  }

  /** The state between the two halves of stage 2, as `PlayerPhase` computes it. */
  function PlayerMid(st: State, host: Host, data: string): State
  {
    match FindVid(data, 0)
    case None => st
    case Some(vid) =>
      if PlayerUrl(vid) in st.processed then st
      else PlayerScan(Record(st, Claim(Player, PlayerUrl(vid))), host, data, PlayerUrl(vid))
  }

  /**
   * Stage 2 does nothing without a `vid`, or when its player URL was
   * already processed; otherwise it starts by claiming the player URL and
   * then fetching it, and it hands every non-blank iframe of a fetched
   * player page on.  It goes through player events, then player-iframe events.
   */
  lemma PlayerPhaseInv(st: State, host: Host, data: string)
    requires Inv(st)
    ensures var r := PlayerPhase(st, host, data);
      var mid := PlayerMid(st, host, data);
      && Inv(mid) && Extends(st, mid, Player) && Inv(r) && Extends(mid, r, PlayerIframes)
      && (FindVid(data, 0).None? ==> r == st)
      && (FindVid(data, 0).Some? && PlayerUrl(FindVid(data, 0).value) in st.processed ==> r == st)
  {
    var r := PlayerPhase(st, host, data);
    match FindVid(data, 0)
    case None =>
      ExtendsRefl(st, Player);
      ExtendsRefl(st, PlayerIframes);
    case Some(vid) =>
      var u := PlayerUrl(vid);
      if u in st.processed {
        ExtendsRefl(st, Player);
        ExtendsRefl(st, PlayerIframes);
      } else {
        PlayerUrlNotBlank(vid);
        var st0 := Record(st, Claim(Player, u));
        RecordInv(st, Claim(Player, u));
        var st1 := PlayerScan(st0, host, data, u);
        PlayerScanInv(st0, host, data, u);
        ExtendsTrans(st, st0, st1, Player);
        if host.get(u, data).Some? {
          PlayerFramesInv(st1, host, data, u);
        } else {
          ExtendsRefl(st1, PlayerIframes);
        }
      }
  }

  /**
   * With a `vid` whose player URL is new, stage 2 claims the player URL
   * before anything else and fetches it right after, and every non-blank
   * iframe of the fetched player page ends up processed.
   */
  lemma PlayerClaimedFirst(st: State, host: Host, data: string)
    requires Inv(st) && FindVid(data, 0).Some? && PlayerUrl(FindVid(data, 0).value) !in st.processed
    ensures var u := PlayerUrl(FindVid(data, 0).value);
      var r := PlayerPhase(st, host, data);
      && |r.trace| > |st.trace| + 1
      && r.trace[|st.trace|] == Claim(Player, u)
      && r.trace[|st.trace| + 1] == Fetch(Player, u, host.get(u, data).Some?)
      && u in r.processed
      && (host.get(u, data).Some? ==>
            forall src :: src in host.get(u, data).value.iframeSrcs && !IsBlank(NormalizeSrc(src)) ==> NormalizeSrc(src) in r.processed)
  {
    var u := PlayerUrl(FindVid(data, 0).value);
    PlayerUrlNotBlank(FindVid(data, 0).value);
    var st0 := Record(st, Claim(Player, u));
    RecordInv(st, Claim(Player, u));
    var st1 := PlayerScan(st0, host, data, u);
    PlayerScanInv(st0, host, data, u);
    var r := PlayerPhase(st, host, data);
    PlayerPhaseInv(st, host, data);
    assert r.trace[|st.trace|] == r.trace[..|st1.trace|][|st.trace|] == st1.trace[|st.trace|] == st0.trace[|st.trace|];
    assert r.trace[|st.trace| + 1] == r.trace[..|st1.trace|][|st.trace| + 1] == st1.trace[|st0.trace|];
    if host.get(u, data).Some? {
      PlayerFramesInv(st1, host, data, u);
    }
  }

  method VisitPlayerFrame(st: State, host: Host, data: string, raw: string) returns (r: State)
    ensures r == PlayerFrameStep(st, host, data, raw)
  {
    r := st;
    var src := raw;
    if StartsWith(src, "//") {
      src := "https:" + src;
    }
    if !IsBlank(src) && src !in r.processed {
      r := State(r.processed + {src}, r.hasLinks, r.trace + [Claim(PlayerIframes, src)]);
      var ok := host.extract(src, data);
      r := State(r.processed, r.hasLinks || ok, r.trace + [Extract(PlayerIframes, src, ok)]);
    }
  }

  method PlayerStage(st: State, host: Host, data: string) returns (r: State)
    ensures r == PlayerPhase(st, host, data)
  {
    r := st;
    var vid := FindVid(data, 0);
    if vid.None? {
      return;
    }
    var playerUrl := MainUrl + "/player.php?vid=" + vid.value;
    assert playerUrl == PlayerUrl(vid.value);
    if playerUrl in r.processed {
      return;
    }
    r := State(r.processed + {playerUrl}, r.hasLinks, r.trace + [Claim(Player, playerUrl)]);
    var playerDoc := host.get(playerUrl, data);
    r := State(r.processed, r.hasLinks, r.trace + [Fetch(Player, playerUrl, playerDoc.Some?)]);
    if playerDoc.None? {
      return;
    }
    r := ScanText(r, Player, Site, "Player", playerDoc.value.text, playerUrl);
    var playerDocument := host.get(playerUrl, data);
    r := State(r.processed, r.hasLinks, r.trace + [Fetch(PlayerIframes, playerUrl, true)]);
    ghost var st1 := r;
    var srcs := playerDocument.value.iframeSrcs;
    for i := 0 to |srcs|
      invariant r == PlayerFramesFold(st1, host, data, srcs[..i])
    {
      assert srcs[..i + 1][..i] == srcs[..i];
      r := VisitPlayerFrame(r, host, data, srcs[i]);
    }
    assert srcs[..|srcs|] == srcs;
  }

  // ---- loadLinks -----------------------------------------------------------

  /** `loadLinks(data)`: nothing when the page cannot be fetched; otherwise iframes, player, scripts. */
  function LoadLinksRun(host: Host, data: string): Option<State>
  {
    match host.get(data, MainUrl)
    case None => None
    case Some(doc) =>
      var s1 := IframesFold(Start, host, Site, data, doc.iframeSrcs);
      var s2 := PlayerPhase(s1, host, data);
      Some(ScriptsFold(s2, Site, data, doc.scripts))
  }

  /** Returns `hasLinks` and the trace of the run. */
  method LoadLinks(host: Host, data: string) returns (hasLinks: bool, trace: seq<Event>)
    ensures LoadLinksRun(host, data).None? ==> !hasLinks && trace == []
    ensures LoadLinksRun(host, data).Some? ==>
      hasLinks == LoadLinksRun(host, data).value.hasLinks && trace == LoadLinksRun(host, data).value.trace
  {
    var doc := host.get(data, MainUrl);
    if doc.None? {
      return false, [];
    }
    var st := State({}, false, []);
    st := IframesStage(st, host, Site, data, doc.value.iframeSrcs);
    st := PlayerStage(st, host, data);
    st := ScriptsStage(st, Site, data, doc.value.scripts);
    return st.hasLinks, st.trace;
  }

  /** The stages of Shahid's `loadLinks`. */
  const Stages: set<Stage> := {Iframes, Player, PlayerIframes, Scripts}

  lemma StagesIframes(host: Host, data: string, srcs: seq<string>)
    ensures OrderedUpTo(IframesFold(Start, host, Site, data, srcs), Iframes, Stages)
  {
    StartOrdered(Iframes, Stages);
    StartInv();
    IframesFoldInv(Start, host, Site, data, srcs);
    Advance(Start, IframesFold(Start, host, Site, data, srcs), Iframes, Iframes, Stages);
  }

  lemma StagesPlayer(st: State, host: Host, data: string)
    requires OrderedUpTo(st, Iframes, Stages)
    ensures OrderedUpTo(PlayerPhase(st, host, data), PlayerIframes, Stages)
  {
    PlayerPhaseInv(st, host, data);
    var mid := PlayerMid(st, host, data);
    Advance(st, mid, Iframes, Player, Stages);
    Advance(mid, PlayerPhase(st, host, data), Player, PlayerIframes, Stages);
  }

  lemma StagesScripts(st: State, data: string, scripts: seq<string>)
    requires OrderedUpTo(st, PlayerIframes, Stages)
    ensures OrderedUpTo(ScriptsFold(st, Site, data, scripts), Scripts, Stages)
  {
    ScriptsFoldInv(st, Site, data, scripts);
    Advance(st, ScriptsFold(st, Site, data, scripts), PlayerIframes, Scripts, Stages);
  }

  /**
   * A run keeps the invariant and lists its events stage by stage, in the
   * order iframes, player, player iframes, scripts.
   */
  lemma LoadLinksInv(host: Host, data: string)
    requires LoadLinksRun(host, data).Some?
    ensures var r := LoadLinksRun(host, data).value;
      Inv(r) && InStageOrder(r.trace) && StagesAmong(r.trace, Stages)
  {
    var doc := host.get(data, MainUrl).value;
    var s1 := IframesFold(Start, host, Site, data, doc.iframeSrcs);
    var s2 := PlayerPhase(s1, host, data);
    StagesIframes(host, data, doc.iframeSrcs);
    StagesPlayer(s1, host, data);
    StagesScripts(s2, data, doc.scripts);
  }

  /**
   * Every allowed main-page iframe and every URL found in a script ends up
   * processed, whatever the player stage did.
   */
  lemma LoadLinksCoverage(host: Host, data: string)
    requires LoadLinksRun(host, data).Some?
    ensures var r := LoadLinksRun(host, data).value;
      var doc := host.get(data, MainUrl).value;
      && (forall src :: src in doc.iframeSrcs && IframeAllowed(NormalizeSrc(src)) ==> NormalizeSrc(src) in r.processed)
      && (forall sc :: sc in doc.scripts && FindVideoUrl(sc).Some? ==> FindVideoUrl(sc).value in r.processed)
  {
    var doc := host.get(data, MainUrl).value;
    var s1 := IframesFold(Start, host, Site, data, doc.iframeSrcs);
    var s2 := PlayerPhase(s1, host, data);
    var s3 := ScriptsFold(s2, Site, data, doc.scripts);
    StartInv();
    IframesFoldInv(Start, host, Site, data, doc.iframeSrcs);
    PlayerPhaseInv(s1, host, data);
    ScriptsFoldInv(s2, Site, data, doc.scripts);
    assert s1.processed <= s3.processed;
  }

  /** No blank, Google or Facebook frame of the page reaches `loadExtractor` in the iframe stage. */
  lemma LoadLinksFilters(host: Host, data: string)
    requires LoadLinksRun(host, data).Some?
    ensures StageExtractsOnly(LoadLinksRun(host, data).value.trace, Iframes, IframeAllowed)
  {
    var doc := host.get(data, MainUrl).value;
    var s1 := IframesFold(Start, host, Site, data, doc.iframeSrcs);
    var mid := PlayerMid(s1, host, data);
    var s2 := PlayerPhase(s1, host, data);
    var s3 := ScriptsFold(s2, Site, data, doc.scripts);
    StartInv();
    IframesFoldInv(Start, host, Site, data, doc.iframeSrcs);
    PlayerPhaseInv(s1, host, data);
    ScriptsFoldInv(s2, Site, data, doc.scripts);
    StageExtractsStep(Start, s1, Iframes, Iframes, IframeAllowed);
    StageExtractsStep(s1, mid, Player, Iframes, IframeAllowed);
    StageExtractsStep(mid, s2, PlayerIframes, Iframes, IframeAllowed);
    StageExtractsStep(s2, s3, Scripts, Iframes, IframeAllowed);
  }

  // ---- Episodes of load ----------------------------------------------------

  /** `الحلقة\s*(\d+)|حلقة\s*(\d+)|(\d+)\s*حلقة`, for the links of a series page. */
  const SeriesNumber: seq<Alt> := [After(KeyTheEpisode, true), After(KeyEpisode, true), Before(KeyEpisode)]

  /** `(\d+)\s*حلقة|الحلقة\s*(\d+)`, for the inline links of a watch page. */
  const InlineNumber: seq<Alt> := [Before(KeyEpisode), After(KeyTheEpisode, true)]

  /** What `load` sees of a page: its `watch.php` links and the `href` of its first `view-serie.php` link. */
  datatype EpisodePage = EpisodePage(watchLinks: seq<Anchor>, seriesLink: Option<string>)

  /** Both keys start with a letter. */
  lemma KeysPlain()
    ensures AllPlain(SeriesNumber) && AllPlain(InlineNumber)
  {
    assert KeyTheEpisode[0] == 'ا' && KeyEpisode[0] == 'ح';
  }

  /**
   * The number of a series link: at the leftmost position of the title
   * where `الحلقة\s*(\d+)`, `حلقة\s*(\d+)` or `(\d+)\s*حلقة` matches, the
   * digits of the first of them that matches there; null when none
   * matches anywhere.
   */
  lemma SeriesNumberReads(t: string, g: string)
    ensures FirstMatch(SeriesNumber, t, 0, g) ==> ParseNumber(SeriesNumber, t) == ToIntOrNull(g)
    ensures (forall i :: 0 <= i <= |t| ==> !MatchesAt(SeriesNumber, t, i)) ==> ParseNumber(SeriesNumber, t) == None
  {
    KeysPlain();
    ParseNumberCorrect(SeriesNumber, t, g);
  }

  /**
   * The number of an inline link: at the leftmost position of the title
   * where `(\d+)\s*حلقة` or `الحلقة\s*(\d+)` matches, the digits of the
   * first of them that matches there; null when neither matches anywhere.
   */
  lemma InlineNumberReads(t: string, g: string)
    ensures FirstMatch(InlineNumber, t, 0, g) ==> ParseNumber(InlineNumber, t) == ToIntOrNull(g)
    ensures (forall i :: 0 <= i <= |t| ==> !MatchesAt(InlineNumber, t, i)) ==> ParseNumber(InlineNumber, t) == None
  {
    KeysPlain();
    ParseNumberCorrect(InlineNumber, t, g);
  }

  /** A link of a series page: every one is kept, named by its trimmed text. */
  function SeriesEpisode(fixUrl: string -> string, a: Anchor): Option<Episode>
  {
    Some(Episode(fixUrl(a.href), Trim(a.text), ParseNumber(SeriesNumber, Trim(a.text))))
  }

  /** Kotlin's `"$epNum"` of an `Int?`. */
  function NumberText(n: Option<int>): string {
    match n
    case None => "null"
    case Some(k) => IntToString(k)
  }

  /**
   * An inline link of a watch page: skipped when it is the page itself, kept
   * when a number was read or the title names an episode; a blank title
   * becomes `الحلقة N`.
   */
  function InlineEpisode(url: string, fixUrl: string -> string, a: Anchor): Option<Episode>
  {
    var h := fixUrl(a.href);
    var t := Trim(a.text);
    var n := ParseNumber(InlineNumber, t);
    if h == url then None
    else if n.Some? || Contains(t, KeyEpisode) || Contains(t, KeyTheEpisode) then
      Some(Episode(h, if IsBlank(t) then KeyTheEpisode + " " + NumberText(n) else t, n))
    else None
  }

  /**
   * The list before sorting.  A series page lists its links; a watch page
   * lists those of its series page, when it links one and that page can be
   * fetched, and falls back to its own episode links when that gives
   * nothing; any other page has no episodes.
   */
  function Collected(url: string, fixUrl: string -> string, fetch: string -> Option<EpisodePage>, doc: EpisodePage): seq<Episode>
  {
    if Contains(url, "view-serie.php") then Keep(doc.watchLinks, a => SeriesEpisode(fixUrl, a))
    else if Contains(url, "watch.php") then
      var fromSeries := FromSeriesPage(fixUrl, fetch, doc);
      if fromSeries != [] then fromSeries else Keep(doc.watchLinks, a => InlineEpisode(url, fixUrl, a))
    else []
  }

  /** The episodes of the series page a watch page links to; none without a link or when its request fails. */
  function FromSeriesPage(fixUrl: string -> string, fetch: string -> Option<EpisodePage>, doc: EpisodePage): seq<Episode>
  {
    match doc.seriesLink
    case None => []
    case Some(link) =>
      match fetch(fixUrl(link))
      case None => []
      case Some(sdoc) => Keep(sdoc.watchLinks, a => SeriesEpisode(fixUrl, a))
  }

  function EpisodeList(url: string, fixUrl: string -> string, fetch: string -> Option<EpisodePage>, doc: EpisodePage): seq<Episode>
  {
    DistinctByData(SortByNumber(Collected(url, fixUrl, fetch, doc)))
  }

  /** `load` answers a series when episodes were found and a movie whose data is the page otherwise. */
  datatype Loaded = Series(episodes: seq<Episode>) | Movie(data: string)

  /** `load(url)`; `None` for the page stands for a failed request, answered by the `Error` movie. */
  function LoadResult(url: string, fixUrl: string -> string, fetch: string -> Option<EpisodePage>, doc: Option<EpisodePage>): Loaded
  {
    match doc
    case None => Movie(url)
    case Some(d) =>
      var eps := EpisodeList(url, fixUrl, fetch, d);
      if eps != [] then Series(eps) else Movie(url)
  }

  /** Both keys of the inline pattern contain `حلقة`. */
  lemma InlineKeys()
    ensures KeysContain(InlineNumber, KeyEpisode)
    ensures Contains(KeyTheEpisode, KeyEpisode)
  {
    assert KeyTheEpisode[2..6] == KeyEpisode;
    assert OccursAt(KeyTheEpisode, KeyEpisode, 2);
    assert OccursAt(KeyEpisode, KeyEpisode, 0);
  }

  /**
   * The inline filter keeps a link exactly when it is not the page itself
   * and its title contains `حلقة`: a number is only read next to that
   * word, and `الحلقة` contains it.  A kept title is therefore never
   * blank, so the `الحلقة N` default never applies.
   */
  lemma InlineKeep(url: string, fixUrl: string -> string, a: Anchor)
    ensures InlineEpisode(url, fixUrl, a).Some? <==> fixUrl(a.href) != url && Contains(Trim(a.text), KeyEpisode)
    ensures InlineEpisode(url, fixUrl, a).Some? ==> InlineEpisode(url, fixUrl, a).value.name == Trim(a.text)
  {
    var t := Trim(a.text);
    InlineKeys();
    FindDigitsNeedsKey(InlineNumber, t, 0, KeyEpisode);
    if Contains(t, KeyTheEpisode) {
      ContainsTrans(t, KeyTheEpisode, KeyEpisode);
    }
    if Contains(t, KeyEpisode) {
      var k: nat :| OccursAt(t, KeyEpisode, k);
      TrimBlank(a.text);
      assert t != [];
    }
  }

  /** A series-page number needs `حلقة` in the title: each alternative names it. */
  lemma SeriesNumberNeedsKey(title: string)
    ensures ParseNumber(SeriesNumber, title).Some? ==> Contains(title, KeyEpisode)
  {
    InlineKeys();
    assert OccursAt(KeyEpisode, KeyEpisode, 0);
    assert KeysContain(SeriesNumber, KeyEpisode);
    FindDigitsNeedsKey(SeriesNumber, title, 0, KeyEpisode);
  }

  /** Every episode made of a link of a series page: its resolved link, its trimmed text, its number. */
  lemma SeriesKeepsAll(fixUrl: string -> string, links: seq<Anchor>)
    ensures var r := Keep(links, a => SeriesEpisode(fixUrl, a));
      && |r| == |links|
      && forall k :: 0 <= k < |links| ==> r[k] == Episode(fixUrl(links[k].href), Trim(links[k].text), ParseNumber(SeriesNumber, Trim(links[k].text)))
  {
    KeepTotal(links, a => SeriesEpisode(fixUrl, a));
  }

  /**
   * The series page of a watch page: nothing without a link to one or when
   * its request fails; otherwise one episode for each of its links, so it
   * gives something exactly when it was fetched and lists a link.
   */
  lemma SeriesPageEpisodes(fixUrl: string -> string, fetch: string -> Option<EpisodePage>, doc: EpisodePage)
    ensures var r := FromSeriesPage(fixUrl, fetch, doc);
      && (doc.seriesLink.None? ==> r == [])
      && (doc.seriesLink.Some? && fetch(fixUrl(doc.seriesLink.value)).None? ==> r == [])
      && (doc.seriesLink.Some? && fetch(fixUrl(doc.seriesLink.value)).Some? ==>
            var links := fetch(fixUrl(doc.seriesLink.value)).value.watchLinks;
            && |r| == |links|
            && forall k :: 0 <= k < |links| ==> r[k] == SeriesEpisode(fixUrl, links[k]).value)
      && (r != [] <==> doc.seriesLink.Some? && fetch(fixUrl(doc.seriesLink.value)).Some?
                        && fetch(fixUrl(doc.seriesLink.value)).value.watchLinks != [])
  {
    if doc.seriesLink.Some? && fetch(fixUrl(doc.seriesLink.value)).Some? {
      var links := fetch(fixUrl(doc.seriesLink.value)).value.watchLinks;
      KeepTotal(links, a => SeriesEpisode(fixUrl, a));
    }
  }

  /**
   * Where the episodes come from: a series page keeps all its links; a
   * watch page takes the episodes of its series page, and reads its own
   * inline links only when that gave nothing, and then none is the page
   * itself and each names an episode in its title; other pages have no
   * episodes.
   */
  lemma CollectedEpisodes(url: string, fixUrl: string -> string, fetch: string -> Option<EpisodePage>, doc: EpisodePage)
    ensures var c := Collected(url, fixUrl, fetch, doc);
      var fromSeries := FromSeriesPage(fixUrl, fetch, doc);
      var inline := Keep(doc.watchLinks, a => InlineEpisode(url, fixUrl, a));
      && (Contains(url, "view-serie.php") ==> |c| == |doc.watchLinks|)
      && (!Contains(url, "view-serie.php") && Contains(url, "watch.php") && fromSeries != [] ==> c == fromSeries)
      && (!Contains(url, "view-serie.php") && Contains(url, "watch.php") && fromSeries == [] ==> c == inline)
      && (!Contains(url, "view-serie.php") && !Contains(url, "watch.php") ==> c == [])
      && (forall e :: e in inline ==> e.data != url && Contains(e.name, KeyEpisode) && e.name != [])
  {
    SeriesKeepsAll(fixUrl, doc.watchLinks);
    var f := a => InlineEpisode(url, fixUrl, a);
    KeepSpec(doc.watchLinks, f);
    forall e | e in Keep(doc.watchLinks, f) ensures e.data != url && Contains(e.name, KeyEpisode) && e.name != [] {
      var k :| 0 <= k < |doc.watchLinks| && f(doc.watchLinks[k]) == Some(e);
      InlineKeep(url, fixUrl, doc.watchLinks[k]);
      var j: nat :| OccursAt(e.name, KeyEpisode, j);
    }
  }

  /**
   * The episode list has unique links, is ordered by number with unnumbered
   * episodes first, holds only collected episodes, and keeps exactly one,
   * the first in sorted order, for each collected link.
   */
  lemma EpisodeListProps(url: string, fixUrl: string -> string, fetch: string -> Option<EpisodePage>, doc: EpisodePage)
    ensures var c := Collected(url, fixUrl, fetch, doc);
      var r := EpisodeList(url, fixUrl, fetch, doc);
      && UniqueData(r) && SortedByNumber(r)
      && (forall e :: e in r ==> e in c)
      && (forall e :: e in c ==> exists e' :: e' in r && e'.data == e.data)
      && (r == [] <==> c == [])
      && (exists idx :: FirstsInOrder(r, SortByNumber(c), idx))
  {
    var c := Collected(url, fixUrl, fetch, doc);
    SortThenDistinct(c);
    SortThenDistinctEmpty(c);
  }

  /** `load` answers a series exactly when its page was fetched and some episode was collected. */
  lemma LoadResultKind(url: string, fixUrl: string -> string, fetch: string -> Option<EpisodePage>, doc: Option<EpisodePage>)
    ensures LoadResult(url, fixUrl, fetch, doc).Series? <==> doc.Some? && Collected(url, fixUrl, fetch, doc.value) != []
    ensures LoadResult(url, fixUrl, fetch, doc).Movie? ==> LoadResult(url, fixUrl, fetch, doc).data == url
  {
    if doc.Some? {
      EpisodeListProps(url, fixUrl, fetch, doc.value);
    }
  }

  /** Helper for `SeriesLinks`: one more link of a series page adds its episode. */
  lemma SeriesLinkStep(fixUrl: string -> string, links: seq<Anchor>, i: nat, episodes: seq<Episode>, r: seq<Episode>)
    requires i < |links| && r == episodes + Keep(links[..i], a => SeriesEpisode(fixUrl, a))
    ensures r + [SeriesEpisode(fixUrl, links[i]).value] == episodes + Keep(links[..i + 1], a => SeriesEpisode(fixUrl, a))
  {
    KeepPrefixStep(links, i, a => SeriesEpisode(fixUrl, a));
  }

  /** One `forEach` over the links of a series page. */
  method SeriesLinks(fixUrl: string -> string, links: seq<Anchor>, episodes: seq<Episode>) returns (r: seq<Episode>)
    ensures r == episodes + Keep(links, a => SeriesEpisode(fixUrl, a))
  {
    r := episodes;
    for i := 0 to |links|
      invariant r == episodes + Keep(links[..i], a => SeriesEpisode(fixUrl, a))
    {
      var epHref := fixUrl(links[i].href);
      var epTitle := Trim(links[i].text);
      var epNum := ParseNumber(SeriesNumber, epTitle);
      SeriesLinkStep(fixUrl, links, i, episodes, r);
      r := r + [Episode(epHref, epTitle, epNum)];
    }
    assert links[..|links|] == links;
  }

  /** The inline fallback's `forEach` over a watch page's own episode links. */
  method InlineLinks(url: string, fixUrl: string -> string, links: seq<Anchor>) returns (episodes: seq<Episode>)
    ensures episodes == Keep(links, a => InlineEpisode(url, fixUrl, a))
  {
    episodes := [];
    for i := 0 to |links|
      invariant episodes == Keep(links[..i], a => InlineEpisode(url, fixUrl, a))
    {
      assert links[..i + 1][..i] == links[..i];
      var epHref := fixUrl(links[i].href);
      if epHref != url {
        var epTitle := Trim(links[i].text);
        var epNum := ParseNumber(InlineNumber, epTitle);
        if epNum.Some? || Contains(epTitle, KeyEpisode) || Contains(epTitle, KeyTheEpisode) {
          var name := if IsBlank(epTitle) then KeyTheEpisode + " " + NumberText(epNum) else epTitle;
          episodes := episodes + [Episode(epHref, name, epNum)];
        }
      }
    }
    assert links[..|links|] == links;
  }

  /** The episode part of `load`, as its loops build the list. */
  method LoadEpisodes(url: string, fixUrl: string -> string, fetch: string -> Option<EpisodePage>, doc: EpisodePage)
    returns (unique: seq<Episode>)
    ensures unique == EpisodeList(url, fixUrl, fetch, doc)
  {
    var episodes: seq<Episode> := [];
    if Contains(url, "view-serie.php") {
      episodes := SeriesLinks(fixUrl, doc.watchLinks, episodes);
      assert episodes == Collected(url, fixUrl, fetch, doc);
    } else if Contains(url, "watch.php") {
      if doc.seriesLink.Some? {
        var seriesDoc := fetch(fixUrl(doc.seriesLink.value));
        if seriesDoc.Some? {
          episodes := SeriesLinks(fixUrl, seriesDoc.value.watchLinks, episodes);
        }
      }
      assert episodes == FromSeriesPage(fixUrl, fetch, doc);
      if episodes == [] {
        episodes := InlineLinks(url, fixUrl, doc.watchLinks);
      }
      assert episodes == Collected(url, fixUrl, fetch, doc);
    }
    episodes := SortByNumber(episodes);
    unique := DistinctByData(episodes);
  }
}
