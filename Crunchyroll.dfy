/**
 * The Crunchyroll source: the cookie jar of its HTTP session, the split of a
 * show's episodes into subbed and dubbed chapters, the choice and titling of
 * the video streams of an episode, the description fallback and the rewrite
 * of search results. Pages, JSON and HTTP responses are input values; the URL
 * fixer, the playlist-extension probe, the cookie-header parser and the fuzzy
 * name similarity are function parameters.
 */
module Crunchyroll {
  import opened Collections
  import opened Text

  // ---------------------------------------------------------------- cookies

  /** A cookie jar: a mutable map from cookie name to value. */
  class CookieJar {
    var cookies: map<string, string>

    constructor (initial: map<string, string>)
      ensures cookies == initial
    {
      cookies := initial;
    }
  }

  /** The contents `mergeCookies` leaves in the first jar: unchanged for a missing or empty map, else overridden by it. */
  function MergedCookies(jar: map<string, string>, extra: Option<map<string, string>>): map<string, string>
  {
    if extra.None? || extra.value == map[] then jar else jar + extra.value
  }

  /**
   * Merging keeps every cookie of the jar, adds every cookie of the map, and
   * the map's value wins on a shared name; a missing or empty map changes nothing.
   */
  lemma MergedCookiesSpec(jar: map<string, string>, extra: Option<map<string, string>>)
    ensures extra.None? || extra.value == map[] ==> MergedCookies(jar, extra) == jar
    ensures extra.Some? ==> MergedCookies(jar, extra).Keys == jar.Keys + extra.value.Keys
    ensures extra.Some? ==> forall k :: k in extra.value ==> MergedCookies(jar, extra)[k] == extra.value[k]
    ensures forall k :: k in jar && (extra.None? || k !in extra.value) ==> MergedCookies(jar, extra)[k] == jar[k]
  {
    if extra.Some? && extra.value == map[] {
      assert extra.value.Keys == {};
    }
  }

  /**
   * `HttpSession.mergeCookies`: the second map is put into the first jar, in
   * place, and that same jar is returned.
   */
  method MergeCookies(jar: CookieJar, extra: Option<map<string, string>>) returns (merged: CookieJar)
    modifies jar
    ensures merged == jar
    ensures jar.cookies == MergedCookies(old(jar.cookies), extra)
  {
    merged := jar;
    if extra.Some? && extra.value != map[] {
      merged.cookies := merged.cookies + extra.value;
    }
  }

  /** An HTTP response: its parsed cookies and its header entries, in order. */
  datatype Response = Response(cookies: map<string, string>, headers: seq<(string, string)>)

  /** The `Set-Cookie` headers (name compared after lower-casing), each parsed into a cookie. */
  function SetCookies(headers: seq<(string, string)>, parse: string -> (string, string)): (r: seq<(string, string)>)
    ensures |r| <= |headers|
    ensures forall c :: c in r <==> exists h :: h in headers && Lower(h.0) == "set-cookie" && parse(h.1) == c
  {
    if headers == [] then []
    else
      var init, h := headers[..|headers| - 1], headers[|headers| - 1];
      assert headers == init + [h];
      SetCookies(init, parse) + (if Lower(h.0) == "set-cookie" then [parse(h.1)] else [])
  }

  /** A jar built from cookies, one after the other. */
  function JarOf(cookies: seq<(string, string)>): map<string, string>
  {
    PutAll(map[], cookies)
  }

  /** The session's cookies after a response: its cookies, then its `Set-Cookie` headers, are put into the jar. */
  function AfterResponse(jar: map<string, string>, res: Response, parse: string -> (string, string)): map<string, string>
  {
    (jar + res.cookies) + JarOf(SetCookies(res.headers, parse))
  }

  /** A session holding a cookie jar across requests. */
  class HttpSession {
    const sessionCookies: CookieJar

    constructor ()
      ensures fresh(sessionCookies) && sessionCookies.cookies == map[]
    {
      sessionCookies := new CookieJar(map[]);
    }

    /**
     * `get` and `post`: the request is sent with the session jar merged with
     * the request's cookies; since the merge works in place on the session jar,
     * those cookies stay in the session. Then the response's cookies are kept.
     * `res` is what the server answers.
     */
    method Request(cookies: Option<map<string, string>>, res: Response, parse: string -> (string, string))
      returns (sent: map<string, string>, r: Response)
      modifies sessionCookies
      ensures sent == MergedCookies(old(sessionCookies.cookies), cookies)
      ensures sessionCookies.cookies == AfterResponse(sent, res, parse)
      ensures r == res
    {
      var jar := MergeCookies(sessionCookies, cookies);
      sent := jar.cookies;
      r := res;
      sessionCookies.cookies := sessionCookies.cookies + r.cookies;
      sessionCookies.cookies := sessionCookies.cookies + JarOf(SetCookies(r.headers, parse));
    }
  }

  /**
   * After a request, the session still holds every cookie it held and every
   * cookie passed to that one request, together with the response's cookies;
   * a `Set-Cookie` header wins over everything else.
   */
  lemma RequestCookiesPersist(jar: map<string, string>, cookies: Option<map<string, string>>,
                              res: Response, parse: string -> (string, string))
    ensures jar.Keys <= AfterResponse(MergedCookies(jar, cookies), res, parse).Keys
    ensures cookies.Some? ==> cookies.value.Keys <= AfterResponse(MergedCookies(jar, cookies), res, parse).Keys
    ensures res.cookies.Keys <= AfterResponse(MergedCookies(jar, cookies), res, parse).Keys
    ensures forall c :: c in SetCookies(res.headers, parse) ==> c.0 in AfterResponse(MergedCookies(jar, cookies), res, parse)
  {
    MergedCookiesSpec(jar, cookies);
    var entries := SetCookies(res.headers, parse);
    assert JarOf(entries).Keys == set c | c in entries :: c.0;
  }

  // ---------------------------------------------------------------- episodes

  /** An `.episode` element: its `.short-desc` and `span.ellipsis` texts, its link and its media id. */
  datatype EpisodeElement = EpisodeElement(shortDesc: Option<string>, ellipsis: Option<string>, href: string, mediaId: string)

  /** A `.season` element: the text of its `a.season-dropdown`, if any, and its episodes. */
  datatype SeasonElement = SeasonElement(dropdown: Option<string>, episodes: seq<EpisodeElement>)

  /** A chapter (`ChapterModel`): name, URL, upload field (the media id) and the show's URL. */
  datatype ChapterModel = ChapterModel(name: string, url: string, uploaded: string, sourceUrl: string)

  /** Where a season's episodes go. */
  datatype Track = Subbed | Dubbed | Dropped

  /** Number of ASCII digits at the start of `s`. */
  function DigitRun(s: string): (n: nat)
    ensures n <= |s| && AllDigits(s[..n])
    ensures n < |s| ==> !IsDigit(s[n])
  {
    if s == [] || !IsDigit(s[0]) then 0
    else
      var n := DigitRun(s[1..]);
      assert s[..n + 1] == [s[0]] + s[1..][..n];
      n + 1
  }

  /** A match of `Episode (\d+)` at the start of `s`. */
  predicate EpisodeAt(s: string)
  {
    StartsWith(s, "Episode ") && DigitRun(s[8..]) > 0
  }

  /**
   * The first group of the leftmost match of the regex `Episode (\d+)` in `s`:
   * the digits after the first "Episode " that is followed by a digit, as many
   * as there are.
   */
  function EpisodeNumber(s: string): (r: Option<string>)
    ensures r.Some? ==> r.value != [] && AllDigits(r.value)
    decreases |s|
  {
    if s == [] then None
    else if EpisodeAt(s) then
      var n := DigitRun(s[8..]);
      assert s[8..8 + n] == s[8..][..n];
      Some(s[8..8 + n])
    else EpisodeNumber(s[1..])
  }

  /** The regex finds no number exactly when no "Episode " in `s` is followed by a digit. */
  lemma {:induction false} EpisodeNumberNone(s: string)
    ensures EpisodeNumber(s).None? <==> forall i :: 0 <= i <= |s| ==> !EpisodeAt(s[i..])
    decreases |s|
  {
    assert s[0..] == s;
    if s != [] && !EpisodeAt(s) {
      EpisodeNumberNone(s[1..]);
      forall i | 1 <= i <= |s| ensures s[i..] == s[1..][i - 1..] {}
      if exists i :: 0 <= i <= |s[1..]| && EpisodeAt(s[1..][i..]) {
        var i :| 0 <= i <= |s[1..]| && EpisodeAt(s[1..][i..]);
        assert EpisodeAt(s[i + 1..]);
      }
    }
  }

  /**
   * A number that is found is the digit run after the leftmost "Episode "
   * that is followed by a digit.
   */
  lemma {:induction false} EpisodeNumberLeftmost(s: string) returns (i: nat)
    requires EpisodeNumber(s).Some?
    ensures i + 8 <= |s| && EpisodeAt(s[i..])
    ensures forall j :: 0 <= j < i ==> !EpisodeAt(s[j..])
    ensures EpisodeNumber(s).value == s[i + 8..i + 8 + DigitRun(s[i + 8..])]
    decreases |s|
  {
    if EpisodeAt(s) {
      i := 0;
      assert s[0..] == s;
    } else {
      var i' := EpisodeNumberLeftmost(s[1..]);
      i := i' + 1;
      assert s[1..][i'..] == s[i..];
      assert s[1..][i' + 8..] == s[i + 8..];
      forall j | 0 <= j < i ensures !EpisodeAt(s[j..]) {
        if j == 0 {
          assert s[0..] == s;
        } else {
          assert s[1..][j - 1..] == s[j..];
        }
      }
    }
  }

  /** The episode label "Episode 12" yields the number "12", for every number written by `toString`. */
  lemma EpisodeNumberOfLabel(n: nat)
    ensures EpisodeNumber("Episode " + Decimal(n)) == Some(Decimal(n))
  {
    var d := Decimal(n);
    var s := "Episode " + d;
    assert s[8..] == d;
    assert s[..8] == "Episode ";
    assert DigitRun(d) == |d|;
    assert s[8..8 + |d|] == d;
  }

  /** The markers looked for in a season's name. */
  const HdMarker: string := "(HD)"
  const DubMarker: string := "Dub"
  const RussianMarker: string := "Russian"

  /**
   * The track of a season, from its trimmed dropdown text: none means sub;
   * a name with "(HD)" is dropped, even when it also says "Dub"; then "Dub"
   * or "Russian" means dub; any other name is sub.
   */
  function SeasonTrack(seasonName: Option<string>): Track
  {
    if seasonName.None? then Subbed
    else if Contains(seasonName.value, HdMarker) then Dropped
    else if Contains(seasonName.value, DubMarker) || Contains(seasonName.value, RussianMarker) then Dubbed
    else Subbed
  }

  /** The trimmed season name. */
  function SeasonName(s: SeasonElement): Option<string>
  {
    if s.dropdown.Some? then Some(Trim(s.dropdown.value)) else None
  }

  function TrackOf(s: SeasonElement): Track
  {
    SeasonTrack(SeasonName(s))
  }

  /** `"$epNum: $epTitle"`, with " (Dub)" after it on the dub track; a missing value prints as "null". */
  function EpisodeName(ep: EpisodeElement, track: Track): string
  {
    Render(EpisodeNumber(Render(ep.ellipsis))) + ": " + Render(ep.shortDesc) + (if track == Dubbed then " (Dub)" else "")
  }

  function MakeChapter(ep: EpisodeElement, track: Track, sourceUrl: string, fixUrl: string -> string): ChapterModel
  {
    ChapterModel(EpisodeName(ep, track), fixUrl(ep.href), ep.mediaId, sourceUrl)
  }

  /** The chapters of some episodes on a track, in document order. */
  function EpisodeChapters(eps: seq<EpisodeElement>, track: Track, sourceUrl: string, fixUrl: string -> string)
    : seq<ChapterModel>
  {
    seq(|eps|, i requires 0 <= i < |eps| => MakeChapter(eps[i], track, sourceUrl, fixUrl))
  }

  /** The chapters a season contributes to a track. */
  function SeasonChapters(s: SeasonElement, track: Track, sourceUrl: string, fixUrl: string -> string)
    : seq<ChapterModel>
  {
    if TrackOf(s) == track then EpisodeChapters(s.episodes, track, sourceUrl, fixUrl) else []
  }

  function SeasonChaptersOn(track: Track, sourceUrl: string, fixUrl: string -> string): SeasonElement -> seq<ChapterModel>
  {
    s => SeasonChapters(s, track, sourceUrl, fixUrl)
  }

  /** The chapters on one track of the episodes of the seasons, season after season. */
  function TrackChapters(seasons: seq<SeasonElement>, track: Track, sourceUrl: string, fixUrl: string -> string)
    : seq<ChapterModel>
  {
    FlatMap(seasons, SeasonChaptersOn(track, sourceUrl, fixUrl))
  }

  /**
   * The inner loop of lines 266-302: each episode of a season goes to the sub
   * list, to the dub list or nowhere, according to the season's name.
   */
  method AddSeasonEpisodes(seasonName: Option<string>, eps: seq<EpisodeElement>, sub: seq<ChapterModel>,
                           dub: seq<ChapterModel>, sourceUrl: string, fixUrl: string -> string)
    returns (sub': seq<ChapterModel>, dub': seq<ChapterModel>)
    ensures sub' == sub + (if SeasonTrack(seasonName) == Subbed then EpisodeChapters(eps, Subbed, sourceUrl, fixUrl) else [])
    ensures dub' == dub + (if SeasonTrack(seasonName) == Dubbed then EpisodeChapters(eps, Dubbed, sourceUrl, fixUrl) else [])
  {
    ghost var track := SeasonTrack(seasonName);
    sub', dub' := sub, dub;
    for j := 0 to |eps|
      invariant sub' == sub + (if track == Subbed then EpisodeChapters(eps[..j], Subbed, sourceUrl, fixUrl) else [])
      invariant dub' == dub + (if track == Dubbed then EpisodeChapters(eps[..j], Dubbed, sourceUrl, fixUrl) else [])
    {
      var ep := eps[j];
      if seasonName.None? {
        sub' := sub' + [MakeChapter(ep, Subbed, sourceUrl, fixUrl)];
      } else if Contains(seasonName.value, HdMarker) {
        // premium copies of the episodes are left out
      } else if Contains(seasonName.value, DubMarker) || Contains(seasonName.value, RussianMarker) {
        dub' := dub' + [MakeChapter(ep, Dubbed, sourceUrl, fixUrl)];
      } else {
        sub' := sub' + [MakeChapter(ep, Subbed, sourceUrl, fixUrl)];
      }
      EpisodeChaptersSnoc(eps, j, track, sourceUrl, fixUrl);
    }
    assert eps[..|eps|] == eps;
  }

  /**
   * Lines 261-303 and 324: every episode of every season goes to the sub or
   * the dub list (or nowhere), and the chapters are the sub list followed by
   * the dub list.
   */
  method ClassifyEpisodes(seasons: seq<SeasonElement>, sourceUrl: string, fixUrl: string -> string)
    returns (chapters: seq<ChapterModel>)
    ensures chapters == TrackChapters(seasons, Subbed, sourceUrl, fixUrl) + TrackChapters(seasons, Dubbed, sourceUrl, fixUrl)
  {
    var sub: seq<ChapterModel> := [];
    var dub: seq<ChapterModel> := [];
    for i := 0 to |seasons|
      invariant sub == TrackChapters(seasons[..i], Subbed, sourceUrl, fixUrl)
      invariant dub == TrackChapters(seasons[..i], Dubbed, sourceUrl, fixUrl)
    {
      var season := seasons[i];
      assert seasons[..i + 1] == seasons[..i] + [season];
      TrackChaptersSnoc(seasons[..i], season, Subbed, sourceUrl, fixUrl);
      TrackChaptersSnoc(seasons[..i], season, Dubbed, sourceUrl, fixUrl);
      sub, dub := AddSeasonEpisodes(SeasonName(season), season.episodes, sub, dub, sourceUrl, fixUrl);
    }
    assert seasons[..|seasons|] == seasons;
    chapters := sub + dub;
  }

  lemma EpisodeChaptersSnoc(eps: seq<EpisodeElement>, j: nat, track: Track, sourceUrl: string, fixUrl: string -> string)
    requires j < |eps|
    ensures EpisodeChapters(eps[..j + 1], track, sourceUrl, fixUrl) ==
            EpisodeChapters(eps[..j], track, sourceUrl, fixUrl) + [MakeChapter(eps[j], track, sourceUrl, fixUrl)]
  {
  }

  lemma TrackChaptersSnoc(s: seq<SeasonElement>, x: SeasonElement, track: Track, sourceUrl: string, fixUrl: string -> string)
    ensures TrackChapters(s + [x], track, sourceUrl, fixUrl) ==
            TrackChapters(s, track, sourceUrl, fixUrl) + SeasonChapters(x, track, sourceUrl, fixUrl)
  {
    FlatMapSnoc(s, x, SeasonChaptersOn(track, sourceUrl, fixUrl));
  }

  lemma TrackChaptersAppend(a: seq<SeasonElement>, b: seq<SeasonElement>, track: Track,
                            sourceUrl: string, fixUrl: string -> string)
    ensures TrackChapters(a + b, track, sourceUrl, fixUrl) ==
            TrackChapters(a, track, sourceUrl, fixUrl) + TrackChapters(b, track, sourceUrl, fixUrl)
  {
    FlatMapAppend(a, b, SeasonChaptersOn(track, sourceUrl, fixUrl));
  }

  /** A dropped season (one whose name mentions "(HD)") contributes no chapter to either list. */
  lemma DroppedSeasonIgnored(a: seq<SeasonElement>, s: SeasonElement, b: seq<SeasonElement>, track: Track,
                             sourceUrl: string, fixUrl: string -> string)
    requires s.dropdown.Some? && Contains(Trim(s.dropdown.value), HdMarker)
    requires track != Dropped
    ensures TrackChapters(a + [s] + b, track, sourceUrl, fixUrl) == TrackChapters(a + b, track, sourceUrl, fixUrl)
  {
    assert TrackOf(s) == Dropped;
    assert SeasonChapters(s, track, sourceUrl, fixUrl) == [];
    TrackChaptersAppend(a + [s], b, track, sourceUrl, fixUrl);
    TrackChaptersSnoc(a, s, track, sourceUrl, fixUrl);
    TrackChaptersAppend(a, b, track, sourceUrl, fixUrl);
  }

  /**
   * Every chapter on a track comes from an episode of a season classified on
   * that track, and is named after it; on the dub track the name ends in " (Dub)".
   */
  lemma TrackChaptersFrom(seasons: seq<SeasonElement>, track: Track, sourceUrl: string,
                          fixUrl: string -> string, c: ChapterModel)
    requires c in TrackChapters(seasons, track, sourceUrl, fixUrl)
    ensures exists s, ep :: s in seasons && TrackOf(s) == track && ep in s.episodes &&
              c == MakeChapter(ep, track, sourceUrl, fixUrl)
    ensures track == Dubbed ==> |c.name| >= 6 && c.name[|c.name| - 6..] == " (Dub)"
  {
    var k := FlatMapFrom(seasons, SeasonChaptersOn(track, sourceUrl, fixUrl), c);
    var s := seasons[k];
    var eps := EpisodeChapters(s.episodes, track, sourceUrl, fixUrl);
    var i :| 0 <= i < |eps| && eps[i] == c;
    assert s.episodes[i] in s.episodes;
  }

  /** Number of episodes of the seasons on a track. */
  function TrackSize(seasons: seq<SeasonElement>, track: Track): nat
  {
    if seasons == [] then 0
    else
      var s := seasons[|seasons| - 1];
      TrackSize(seasons[..|seasons| - 1], track) + (if TrackOf(s) == track then |s.episodes| else 0)
  }

  function EpisodeCount(seasons: seq<SeasonElement>): nat
  {
    if seasons == [] then 0 else EpisodeCount(seasons[..|seasons| - 1]) + |seasons[|seasons| - 1].episodes|
  }

  /** Every episode is counted once: the sub and dub chapters and the dropped episodes add up to all episodes. */
  lemma {:induction false} ChaptersCoverEpisodes(seasons: seq<SeasonElement>, sourceUrl: string, fixUrl: string -> string)
    ensures |TrackChapters(seasons, Subbed, sourceUrl, fixUrl)| + |TrackChapters(seasons, Dubbed, sourceUrl, fixUrl)|
            + TrackSize(seasons, Dropped) == EpisodeCount(seasons)
  {
    if seasons != [] {
      var init, last := seasons[..|seasons| - 1], seasons[|seasons| - 1];
      assert seasons == init + [last];
      ChaptersCoverEpisodes(init, sourceUrl, fixUrl);
      TrackChaptersSnoc(init, last, Subbed, sourceUrl, fixUrl);
      TrackChaptersSnoc(init, last, Dubbed, sourceUrl, fixUrl);
    }
  }

  // ---------------------------------------------------------------- streams

  /** A stream entry of the player configuration; only its title is ever assigned. */
  class Stream {
    const format: Option<string>
    const audioLang: Option<string>
    const hardsubLang: Option<string>
    const url: string
    const resolution: Option<string>
    var title: Option<string>

    constructor (format: Option<string>, audioLang: Option<string>, hardsubLang: Option<string>,
                 url: string, resolution: Option<string>)
      ensures this.format == format && this.audioLang == audioLang && this.hardsubLang == hardsubLang
      ensures this.url == url && this.resolution == resolution && title.None?
    {
      this.format := format;
      this.audioLang := audioLang;
      this.hardsubLang := hardsubLang;
      this.url := url;
      this.resolution := resolution;
      title := None;
    }
  }

  /** The adaptive formats that are accepted. */
  const AdaptiveFormats: seq<string> :=
    ["adaptive_hls", "adaptive_dash", "multitrack_adaptive_hls_v2", "vo_adaptive_dash", "vo_adaptive_hls"]

  /**
   * A stream is kept when its format is one of the adaptive formats, its audio
   * is Japanese, it has no hard subtitles or English ones, and its URL is a
   * playlist ("m3u" or "m3u8", as `extensionOf` determines it).
   */
  predicate Wanted(s: Stream, extensionOf: string -> string)
  {
    && s.format.Some? && s.format.value in AdaptiveFormats
    && s.audioLang == Some("jaJP")
    && (s.hardsubLang.None? || s.hardsubLang == Some("enUS"))
    && extensionOf(s.url) in ["m3u", "m3u8"]
  }

  /** The title given to a kept stream. */
  function StreamTitle(s: Stream): string
  {
    if s.hardsubLang == Some("enUS") then "Hardsub" else "Raw"
  }

  /** The wanted streams, in order. */
  function KeptStreams(streams: seq<Stream>, extensionOf: string -> string): (r: seq<Stream>)
    ensures forall i :: 0 <= i < |r| ==> r[i] in streams && Wanted(r[i], extensionOf)
    ensures forall i :: 0 <= i < |streams| && Wanted(streams[i], extensionOf) ==> streams[i] in r
  {
    if streams == [] then []
    else
      var init, s := streams[..|streams| - 1], streams[|streams| - 1];
      assert streams == init + [s];
      KeptStreams(init, extensionOf) + (if Wanted(s, extensionOf) then [s] else [])
  }

  /**
   * Filtering a concatenation filters each part: the kept streams keep their
   * relative order, and each is kept once per occurrence.
   */
  lemma {:induction false} KeptStreamsAppend(a: seq<Stream>, b: seq<Stream>, extensionOf: string -> string)
    ensures KeptStreams(a + b, extensionOf) == KeptStreams(a, extensionOf) + KeptStreams(b, extensionOf)
  {
    if b == [] {
      assert a + b == a;
    } else {
      var init, s := b[..|b| - 1], b[|b| - 1];
      assert b == init + [s];
      assert a + b == (a + init) + [s];
      KeptStreamsAppend(a, init, extensionOf);
    }
  }

  /** A single stream is kept exactly when it is wanted. */
  lemma KeptStreamsSingle(s: Stream, extensionOf: string -> string)
    ensures KeptStreams([s], extensionOf) == if Wanted(s, extensionOf) then [s] else []
  {
    assert [s][..0] == [];
  }

  /**
   * Lines 371-389: each wanted stream is titled and kept, in order; the others
   * are skipped and left as they were.
   */
  method SelectStreams(streams: seq<Stream>, extensionOf: string -> string) returns (kept: seq<Stream>)
    modifies streams
    ensures kept == KeptStreams(streams, extensionOf)
    ensures forall s :: s in streams ==>
              s.title == if Wanted(s, extensionOf) then Some(StreamTitle(s)) else old(s.title)
  {
    kept := [];
    for i := 0 to |streams|
      invariant kept == KeptStreams(streams[..i], extensionOf)
      invariant forall s :: s in streams ==>
                  s.title == if Wanted(s, extensionOf) && s in streams[..i] then Some(StreamTitle(s)) else old(s.title)
    {
      var stream := streams[i];
      assert streams[..i + 1] == streams[..i] + [stream];
      if stream.format.Some? && stream.format.value in AdaptiveFormats {
        if stream.audioLang == Some("jaJP") && (stream.hardsubLang.None? || stream.hardsubLang == Some("enUS"))
           && extensionOf(stream.url) in ["m3u", "m3u8"] {
          stream.title := Some(if stream.hardsubLang == Some("enUS") then "Hardsub" else "Raw");
          kept := kept + [stream];
        }
      }
    }
    assert streams[..|streams|] == streams;
  }

  /** A kept stream is titled "Hardsub" exactly when its hard subtitles are English, and "Raw" exactly when it has none. */
  lemma StreamTitleMeaning(s: Stream, extensionOf: string -> string)
    requires Wanted(s, extensionOf)
    ensures StreamTitle(s) == "Hardsub" <==> s.hardsubLang == Some("enUS")
    ensures StreamTitle(s) == "Raw" <==> s.hardsubLang.None?
  {
  }

  // ---------------------------------------------------------------- description and search

  /** The `.description` element: the texts of its `.more` and `span` children, when present. */
  datatype DescriptionElement = DescriptionElement(more: Option<string>, span: Option<string>)

  /**
   * Lines 305-315: the trimmed `.more` text when it is present and not blank,
   * else the trimmed `span` text, else the empty string.
   */
  function Description(p: Option<DescriptionElement>): (r: string)
    ensures Trim(r) == r
    ensures p.Some? && p.value.more.Some? && Trim(p.value.more.value) != [] ==> r == Trim(p.value.more.value)
    ensures r != [] && (p.None? || p.value.more.None? || Trim(p.value.more.value) == []) ==>
              p.Some? && p.value.span.Some? && r == Trim(p.value.span.value)
    ensures r == [] <==> p.None? || ((p.value.more.None? || Trim(p.value.more.value) == []) &&
                                     (p.value.span.None? || Trim(p.value.span.value) == []))
  {
    var r :=
      if p.Some? && p.value.more.Some? && Trim(p.value.more.value) != [] then Trim(p.value.more.value)
      else if p.Some? && p.value.span.Some? then Trim(p.value.span.value)
      else "";
    TrimIdempotent(if p.Some? && p.value.more.Some? then p.value.more.value else "");
    TrimIdempotent(if p.Some? && p.value.span.Some? then p.value.span.value else "");
    assert Trim("") == "";
    r
  }

  /** An entry of the search candidates JSON. */
  datatype SearchCandidate = SearchCandidate(name: string, img: string, link: string)

  /** A search result (`ItemModel`): title, description, image URL and URL. */
  datatype ItemModel = ItemModel(title: string, description: string, imageUrl: string, url: string)

  /** A candidate matches the query when its name is similar enough or contains it, ignoring case. */
  predicate Matches(c: SearchCandidate, searchText: string, similarity: (string, string) -> real)
  {
    similarity(c.name, searchText) >= 0.6 || ContainsIgnoreCase(c.name, searchText)
  }

  function ResultOf(c: SearchCandidate, fixUrl: string -> string): ItemModel
  {
    ItemModel(c.name, "", ReplaceAll(c.img, "small", "full"), fixUrl(c.link))
  }

  /**
   * Lines 234-254: the matching candidates, in order, with the thumbnail
   * swapped for the full-size image; no candidates (the JSON did not parse)
   * gives no results.
   */
  function SearchResults(data: Option<seq<SearchCandidate>>, searchText: string,
                         similarity: (string, string) -> real, fixUrl: string -> string): (r: seq<ItemModel>)
    ensures data.None? ==> r == []
    ensures forall item :: item in r ==> !Contains(item.imageUrl, "small")
    ensures forall item :: item in r ==>
              exists c :: c in data.value && Matches(c, searchText, similarity) && item == ResultOf(c, fixUrl)
    ensures forall c :: data.Some? && c in data.value && Matches(c, searchText, similarity) ==> ResultOf(c, fixUrl) in r
    decreases if data.Some? then |data.value| else 0
  {
    if data.None? || data.value == [] then []
    else
      var cs := data.value;
      var init, c := cs[..|cs| - 1], cs[|cs| - 1];
      assert cs == init + [c];
      NoSmallLeft(c.img);
      SearchResults(Some(init), searchText, similarity, fixUrl) +
        (if Matches(c, searchText, similarity) then [ResultOf(c, fixUrl)] else [])
  }

  /** One candidate gives its result exactly when it matches. */
  lemma SearchResultsSingle(c: SearchCandidate, searchText: string,
                            similarity: (string, string) -> real, fixUrl: string -> string)
    ensures SearchResults(Some([c]), searchText, similarity, fixUrl) ==
            if Matches(c, searchText, similarity) then [ResultOf(c, fixUrl)] else []
  {
    assert [c][..0] == [];
  }

  /** The result one candidate contributes: its item when it matches, nothing otherwise. */
  function Hit(searchText: string, similarity: (string, string) -> real, fixUrl: string -> string): SearchCandidate -> seq<ItemModel>
  {
    c => if Matches(c, searchText, similarity) then [ResultOf(c, fixUrl)] else []
  }

  /** `filter` then `fastMap`: the results are the matching candidates' items, candidate by candidate. */
  lemma {:induction false} SearchResultsFlatMap(cs: seq<SearchCandidate>, searchText: string,
                                                similarity: (string, string) -> real, fixUrl: string -> string)
    ensures SearchResults(Some(cs), searchText, similarity, fixUrl) == FlatMap(cs, Hit(searchText, similarity, fixUrl))
    decreases |cs|
  {
    if cs != [] {
      var init := cs[..|cs| - 1];
      SearchResultsFlatMap(init, searchText, similarity, fixUrl);
    }
  }

  /** Results keep the candidates' order and multiplicity: searching a concatenation concatenates the results. */
  lemma SearchResultsAppend(a: seq<SearchCandidate>, b: seq<SearchCandidate>, searchText: string,
                            similarity: (string, string) -> real, fixUrl: string -> string)
    ensures SearchResults(Some(a + b), searchText, similarity, fixUrl) ==
            SearchResults(Some(a), searchText, similarity, fixUrl) + SearchResults(Some(b), searchText, similarity, fixUrl)
  {
    var hit := Hit(searchText, similarity, fixUrl);
    SearchResultsFlatMap(a + b, searchText, similarity, fixUrl);
    SearchResultsFlatMap(a, searchText, similarity, fixUrl);
    SearchResultsFlatMap(b, searchText, similarity, fixUrl);
    FlatMapAppend(a, b, hit);
  }
}
