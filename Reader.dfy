/**
 * The manga reader's view model (`ReadViewModel`): the order of the pages of
 * a downloaded chapter, the lookup of the chapter being read, and the state
 * that loading a chapter's pages updates (`pageList`, `isLoadingPages`,
 * `headers`, `currentChapter`). A page flow is modelled by the values it emits,
 * and it is collected to completion inside the call that starts it.
 */
module Reader {
  import opened Collections
  import opened Text

  // ---------------------------------------------------------------- downloaded pages

  /** The page number of a file: its name before the first '.', read as an `Int`. */
  function PageKey(name: string): Option<int>
  {
    ParseInt(BeforeFirstDot(name))
  }

  predicate Numbered(name: string)
  {
    PageKey(name).Some?
  }

  /** The sort key of a numbered file. */
  function SortKey(name: string): int
  {
    if Numbered(name) then PageKey(name).value else 0
  }

  /** A page written as "<n>.<extension>" has page number n. */
  lemma PageKeyOfPageFile(n: nat, extension: string)
    requires n <= IntMax
    ensures PageKey(Decimal(n) + "." + extension) == Some(n)
  {
    var d := Decimal(n);
    var name := d + "." + extension;
    assert '.' !in d;
    BeforeFirstDotOf(d, extension);
    ParseDecimal(n);
  }

  lemma {:induction false} BeforeFirstDotOf(d: string, extension: string)
    requires '.' !in d
    ensures BeforeFirstDot(d + "." + extension) == d
  {
    if d != [] {
      assert (d + "." + extension)[1..] == d[1..] + "." + extension;
      BeforeFirstDotOf(d[1..], extension);
    }
  }

  /** The outcome of `listFiles()` on the chapter's folder: it failed (null), or the file names. */
  datatype Listing = Unreadable | Files(names: seq<string>)

  predicate AllNumbered(names: seq<string>)
  {
    forall i :: 0 <= i < |names| ==> Numbered(names[i])
  }

  /**
   * Lines 64-73: the files sorted by page number and turned into URIs. A failed
   * listing, or a page number that does not parse, ends the flow with an
   * exception that is caught as an empty list. The sort only reads the keys
   * when there are at least two files, so a single file is shown whatever its name.
   */
  function PageOrder(listing: Listing, uriOf: string -> string): seq<string>
  {
    match listing
    case Unreadable => []
    case Files(names) =>
      if |names| <= 1 then Uris(names, uriOf)
      else if AllNumbered(names) then
        Uris(SortBy(names, SortKey), uriOf)
      else []
  }

  /** `map { it.toUri().toString() }`. */
  function Uris(files: seq<string>, uriOf: string -> string): (r: seq<string>)
    ensures |r| == |files| && forall i :: 0 <= i < |files| ==> r[i] == uriOf(files[i])
  {
    seq(|files|, i requires 0 <= i < |files| => uriOf(files[i]))
  }

  /**
   * The pages of a folder of two or more numbered files are the URIs of a
   * permutation of its files, in increasing page number, files with equal
   * numbers in listing order.
   */
  lemma PageOrderSorted(names: seq<string>, uriOf: string -> string)
    requires |names| >= 2 && AllNumbered(names)
    ensures var sorted := SortBy(names, SortKey);
            && PageOrder(Files(names), uriOf) == Uris(sorted, uriOf)
            && multiset(sorted) == multiset(names)
            && (forall i :: 0 <= i < |sorted| ==> PageKey(sorted[i]) == Some(SortKey(sorted[i])))
            && (forall i, j :: 0 <= i < j < |sorted| ==> SortKey(sorted[i]) <= SortKey(sorted[j]))
            && (forall k :: Filter(sorted, KeyIs(SortKey, k)) == Filter(names, KeyIs(SortKey, k)))
  {
    var sorted := SortBy(names, SortKey);
    SortBySorted(names, SortKey);
    forall k ensures Filter(sorted, KeyIs(SortKey, k)) == Filter(names, KeyIs(SortKey, k)) {
      SortByKeepsOrderOfKey(names, SortKey, k);
    }
    PermutationNumbered(names, sorted);
  }

  lemma PermutationNumbered(names: seq<string>, sorted: seq<string>)
    requires AllNumbered(names) && multiset(sorted) == multiset(names)
    ensures AllNumbered(sorted)
  {
    forall i | 0 <= i < |sorted| ensures Numbered(sorted[i]) {
      assert sorted[i] in multiset(names);
      var j :| 0 <= j < |names| && names[j] == sorted[i];
    }
  }

  /** A folder of at most one file shows that file, whatever its name. */
  lemma PageOrderSingle(names: seq<string>, uriOf: string -> string)
    requires |names| <= 1
    ensures PageOrder(Files(names), uriOf) == Uris(names, uriOf)
  {
  }

  /** A folder that cannot be listed, or of two or more files one of which is not numbered, shows no page. */
  lemma PageOrderEmpty(listing: Listing, uriOf: string -> string)
    requires listing.Unreadable? || (|listing.names| >= 2 && exists i :: 0 <= i < |listing.names| && !Numbered(listing.names[i]))
    ensures PageOrder(listing, uriOf) == []
  {
  }

  // ---------------------------------------------------------------- page flows

  /** A `Storage` of a chapter's info: the page link, if any, and the headers needed to load it. */
  datatype Storage = Storage(link: Option<string>, headers: map<string, string>)

  /** What a page flow emits once: a list of pages, and the header maps it puts into `headers` first. */
  datatype Emission = Emission(pages: seq<string>, headerMaps: seq<map<string, string>>)

  /** `mapNotNull(Storage::link)`. */
  function Links(storages: seq<Storage>): (r: seq<string>)
    ensures forall p :: p in r <==> exists s :: s in storages && s.link == Some(p)
  {
    if storages == [] then []
    else
      var init, s := storages[..|storages| - 1], storages[|storages| - 1];
      assert storages == init + [s];
      Links(init) + (if s.link.Some? then [s.link.value] else [])
  }

  /** The links of a concatenation are the links of each part: page order is storage order. */
  lemma {:induction false} LinksAppend(a: seq<Storage>, b: seq<Storage>)
    ensures Links(a + b) == Links(a) + Links(b)
  {
    if b == [] {
      assert a + b == a;
    } else {
      var init, s := b[..|b| - 1], b[|b| - 1];
      assert b == init + [s];
      assert a + b == (a + init) + [s];
      LinksAppend(a, init);
    }
  }

  /** A single storage gives its link, when it has one. */
  lemma LinksSingle(s: Storage)
    ensures Links([s]) == if s.link.Some? then [s.link.value] else []
  {
    assert [s][..0] == [];
  }

  function HeaderMaps(storages: seq<Storage>): (r: seq<map<string, string>>)
    ensures |r| == |storages| && forall i :: 0 <= i < |r| ==> r[i] == storages[i].headers
  {
    seq(|storages|, i requires 0 <= i < |storages| => storages[i].headers)
  }

  /**
   * The flow of a chapter's info, mapped to its page links; when `keepHeaders`
   * holds (the first chapter, and `refresh`), each list's headers are put into
   * `headers` as it passes.
   */
  function ChapterFlow(info: seq<seq<Storage>>, keepHeaders: bool): (r: seq<Emission>)
    ensures |r| == |info|
    ensures forall i :: 0 <= i < |info| ==>
              r[i].pages == Links(info[i]) && r[i].headerMaps == (if keepHeaders then HeaderMaps(info[i]) else [])
  {
    seq(|info|, i requires 0 <= i < |info| => Emission(Links(info[i]), if keepHeaders then HeaderMaps(info[i]) else []))
  }

  /** The flow of a downloaded chapter: one list of pages, no headers. */
  function FileFlow(listing: Listing, uriOf: string -> string): seq<Emission>
  {
    [Emission(PageOrder(listing, uriOf), [])]
  }

  /**
   * Lines 40-76: the flow the reader starts with. The folder's files when the
   * chapter is a download and a folder was given, else the current chapter's
   * info (none when no chapter was passed).
   */
  function StartFlow(isDownloaded: bool, filePath: Option<Listing>, model: Option<seq<seq<Storage>>>,
                     uriOf: string -> string): (r: Option<seq<Emission>>)
    ensures isDownloaded && filePath.Some? ==> r == Some(FileFlow(filePath.value, uriOf))
    ensures !(isDownloaded && filePath.Some?) ==>
              r == (if model.Some? then Some(ChapterFlow(model.value, true)) else None)
  {
    if isDownloaded && filePath.Some? then Some(FileFlow(filePath.value, uriOf))
    else if model.Some? then Some(ChapterFlow(model.value, true))
    else None
  }

  function EmissionPages(e: Emission): seq<string> { e.pages }

  function EmissionHeaders(e: Emission): seq<map<string, string>> { e.headerMaps }

  /** The pages of all emissions, in order. */
  function AllPages(emissions: seq<Emission>): seq<string>
  {
    FlatMap(emissions, EmissionPages)
  }

  /** `putAll` of several maps, one after the other. */
  function PutMaps(h: map<string, string>, maps: seq<map<string, string>>): map<string, string>
  {
    if maps == [] then h else PutMaps(h, maps[..|maps| - 1]) + maps[|maps| - 1]
  }

  /** The headers after the emissions have passed. */
  function HeadersAfter(h: map<string, string>, emissions: seq<Emission>): map<string, string>
  {
    PutMaps(h, FlatMap(emissions, EmissionHeaders))
  }

  /**
   * After putting maps, a header is present exactly when it was before or some
   * map has it, and its value is the one of the last map that has it.
   */
  lemma {:induction false} PutMapsSpec(h: map<string, string>, maps: seq<map<string, string>>, k: string)
    ensures k in PutMaps(h, maps) <==> k in h || exists i :: 0 <= i < |maps| && k in maps[i]
    ensures forall i :: 0 <= i < |maps| && k in maps[i] && (forall j :: i < j < |maps| ==> k !in maps[j]) ==>
              PutMaps(h, maps)[k] == maps[i][k]
    ensures k in h && (forall i :: 0 <= i < |maps| ==> k !in maps[i]) ==> PutMaps(h, maps)[k] == h[k]
  {
    if maps != [] {
      var init := maps[..|maps| - 1];
      PutMapsSpec(h, init, k);
      assert forall i :: 0 <= i < |init| ==> init[i] == maps[i];
    }
  }

  lemma FlatMapSnocEmission(es: seq<Emission>, e: Emission)
    ensures AllPages(es + [e]) == AllPages(es) + e.pages
    ensures FlatMap(es + [e], EmissionHeaders) == FlatMap(es, EmissionHeaders) + e.headerMaps
  {
    FlatMapSnoc(es, e, EmissionPages);
    FlatMapSnoc(es, e, EmissionHeaders);
  }

  lemma {:induction false} PutMapsAppend(h: map<string, string>, a: seq<map<string, string>>, b: seq<map<string, string>>)
    ensures PutMaps(h, a + b) == PutMaps(PutMaps(h, a), b)
    decreases |b|
  {
    if b == [] {
      assert a + b == a;
    } else {
      var init := b[..|b| - 1];
      assert (a + b)[..|a + b| - 1] == a + init;
      assert (a + b)[|a + b| - 1] == b[|b| - 1];
      PutMapsAppend(h, a, init);
    }
  }

  function StorageList(storages: seq<Storage>): seq<Storage> { storages }

  /** All storages of a chapter's info, list after list. */
  function AllStorages(info: seq<seq<Storage>>): seq<Storage>
  {
    FlatMap(info, StorageList)
  }

  /** One more list of storages adds one emission to a chapter's flow. */
  lemma ChapterFlowSnoc(info: seq<seq<Storage>>, last: seq<Storage>, keepHeaders: bool)
    ensures ChapterFlow(info + [last], keepHeaders) ==
            ChapterFlow(info, keepHeaders) + [Emission(Links(last), if keepHeaders then HeaderMaps(last) else [])]
    ensures AllStorages(info + [last]) == AllStorages(info) + last
  {
    FlatMapSnoc(info, last, StorageList);
  }

  /** Loading a chapter's info shows the links of all its storages, in order. */
  lemma {:induction false} ChapterFlowPages(info: seq<seq<Storage>>, keepHeaders: bool)
    ensures AllPages(ChapterFlow(info, keepHeaders)) == Links(AllStorages(info))
  {
    if info != [] {
      var init, last := info[..|info| - 1], info[|info| - 1];
      assert info == init + [last];
      ChapterFlowPages(init, keepHeaders);
      ChapterFlowSnoc(init, last, keepHeaders);
      FlatMapSnocEmission(ChapterFlow(init, keepHeaders), Emission(Links(last), if keepHeaders then HeaderMaps(last) else []));
      LinksAppend(AllStorages(init), last);
    }
  }

  lemma HeaderMapsAppend(a: seq<Storage>, b: seq<Storage>)
    ensures HeaderMaps(a + b) == HeaderMaps(a) + HeaderMaps(b)
  {
    assert forall i :: 0 <= i < |a| ==> (a + b)[i] == a[i];
  }

  /** The headers a chapter's info puts when they are kept: all its storages' headers, in order. */
  lemma {:induction false} KeptHeaders(info: seq<seq<Storage>>)
    ensures FlatMap(ChapterFlow(info, true), EmissionHeaders) == HeaderMaps(AllStorages(info))
  {
    if info != [] {
      var init, last := info[..|info| - 1], info[|info| - 1];
      assert info == init + [last];
      KeptHeaders(init);
      ChapterFlowSnoc(init, last, true);
      FlatMapSnoc(ChapterFlow(init, true), Emission(Links(last), HeaderMaps(last)), EmissionHeaders);
      HeaderMapsAppend(AllStorages(init), last);
    }
  }

  /** The headers a chapter's info puts: all its storages' headers, in order, when they are kept. */
  lemma ChapterFlowHeaders(info: seq<seq<Storage>>, keepHeaders: bool)
    ensures FlatMap(ChapterFlow(info, keepHeaders), EmissionHeaders) ==
            if keepHeaders then HeaderMaps(AllStorages(info)) else []
  {
    if keepHeaders {
      KeptHeaders(info);
    } else {
      NoMapsPut(ChapterFlow(info, false));
    }
  }

  /**
   * Loading a chapter's info shows the links of all its storages, in order,
   * and puts the headers of all its storages, in order, when they are kept.
   */
  lemma ChapterFlowLoads(info: seq<seq<Storage>>, keepHeaders: bool)
    ensures AllPages(ChapterFlow(info, keepHeaders)) == Links(AllStorages(info))
    ensures FlatMap(ChapterFlow(info, keepHeaders), EmissionHeaders) ==
            if keepHeaders then HeaderMaps(AllStorages(info)) else []
  {
    ChapterFlowPages(info, keepHeaders);
    ChapterFlowHeaders(info, keepHeaders);
  }

  /**
   * What the reader starts with: a downloaded chapter with a folder shows the
   * folder's files in page order and leaves the headers alone; otherwise a
   * passed chapter shows the links of its storages and puts their headers;
   * with neither there is nothing to load.
   */
  lemma StartFlowLoads(isDownloaded: bool, filePath: Option<Listing>, model: Option<seq<seq<Storage>>>,
                       uriOf: string -> string, h: map<string, string>)
    ensures isDownloaded && filePath.Some? ==>
              && StartFlow(isDownloaded, filePath, model, uriOf).Some?
              && AllPages(StartFlow(isDownloaded, filePath, model, uriOf).value) == PageOrder(filePath.value, uriOf)
              && HeadersAfter(h, StartFlow(isDownloaded, filePath, model, uriOf).value) == h
    ensures !(isDownloaded && filePath.Some?) && model.Some? ==>
              && StartFlow(isDownloaded, filePath, model, uriOf).Some?
              && AllPages(StartFlow(isDownloaded, filePath, model, uriOf).value) == Links(AllStorages(model.value))
              && HeadersAfter(h, StartFlow(isDownloaded, filePath, model, uriOf).value) ==
                 PutMaps(h, HeaderMaps(AllStorages(model.value)))
    ensures !(isDownloaded && filePath.Some?) && model.None? ==> StartFlow(isDownloaded, filePath, model, uriOf).None?
  {
    if isDownloaded && filePath.Some? {
      var e := Emission(PageOrder(filePath.value, uriOf), []);
      assert [] + [e] == [e];
      FlatMapSnocEmission([], e);
    } else if model.Some? {
      ChapterFlowLoads(model.value, true);
    }
  }

  /** A chapter as the reader knows it. */
  datatype ChapterModel = ChapterModel(name: string, url: string)

  /** The watched-chapter record written to the database and to Firebase. */
  datatype ChapterWatched = ChapterWatched(url: string, name: string, favoriteUrl: string)

  /** `indexOfFirst { it.url == url }`: the first chapter with that URL, or -1. */
  function ChapterIndex(list: seq<ChapterModel>, url: string): (r: int)
    ensures -1 <= r < |list|
    ensures r >= 0 ==> list[r].url == url
    ensures forall j :: 0 <= j < |list| && (r == -1 || j < r) ==> list[j].url != url
  {
    if list == [] then -1
    else if list[0].url == url then 0
    else
      var r := ChapterIndex(list[1..], url);
      if r == -1 then -1 else r + 1
  }

  /** The state of the reader screen. */
  class ReadViewModel {
    var list: seq<ChapterModel>
    var currentChapter: int
    var pageList: seq<string>
    var isLoadingPages: bool
    var headers: map<string, string>
    /** The watched-chapter records inserted so far. */
    var watched: seq<ChapterWatched>
    const mangaUrl: string

    /**
     * `init`: the chapter list is loaded, the current chapter is the first one
     * with the URL the reader was opened with (-1 when there is none), and the
     * pages of the starting flow (`modelPath`) are loaded: the folder's files
     * for a downloaded chapter with a folder, else the passed chapter's info.
     */
    constructor (chapters: seq<ChapterModel>, url: string, mangaInfoUrl: string, initialHeaders: map<string, string>,
                 isDownloaded: bool, filePath: Option<Listing>, model: Option<seq<seq<Storage>>>,
                 uriOf: string -> string)
      ensures list == chapters && mangaUrl == mangaInfoUrl && watched == []
      ensures currentChapter == ChapterIndex(chapters, url) && !isLoadingPages
      ensures isDownloaded && filePath.Some? ==>
                pageList == PageOrder(filePath.value, uriOf) && headers == initialHeaders
      ensures !(isDownloaded && filePath.Some?) && model.Some? ==>
                && pageList == Links(AllStorages(model.value))
                && headers == PutMaps(initialHeaders, HeaderMaps(AllStorages(model.value)))
      ensures !(isDownloaded && filePath.Some?) && model.None? ==> pageList == [] && headers == initialHeaders
    {
      list := chapters;
      mangaUrl := mangaInfoUrl;
      watched := [];
      headers := initialHeaders;
      pageList := [];
      isLoadingPages := false;
      currentChapter := ChapterIndex(chapters, url);
      new;
      StartFlowLoads(isDownloaded, filePath, model, uriOf, initialHeaders);
      LoadPages(StartFlow(isDownloaded, filePath, model, uriOf));
    }

    /** `onStart`: the loading flag is raised and the old pages are cleared. */
    method OnStart()
      modifies this
      ensures isLoadingPages && pageList == []
      ensures headers == old(headers) && list == old(list) && currentChapter == old(currentChapter)
      ensures watched == old(watched)
    {
      isLoadingPages := true;
      pageList := [];
    }

    /** One emission: its headers are put (the `map`), then its pages are appended (`onEach`). */
    method OnEach(e: Emission)
      modifies this
      ensures pageList == old(pageList) + e.pages
      ensures headers == PutMaps(old(headers), e.headerMaps)
      ensures isLoadingPages == old(isLoadingPages) && list == old(list) && currentChapter == old(currentChapter)
      ensures watched == old(watched)
    {
      var i := 0;
      while i < |e.headerMaps|
        invariant 0 <= i <= |e.headerMaps|
        invariant headers == PutMaps(old(headers), e.headerMaps[..i])
        invariant pageList == old(pageList) && isLoadingPages == old(isLoadingPages)
        invariant list == old(list) && currentChapter == old(currentChapter) && watched == old(watched)
      {
        assert e.headerMaps[..i + 1][..i] == e.headerMaps[..i];
        headers := headers + e.headerMaps[i];
        i := i + 1;
      }
      assert e.headerMaps[..i] == e.headerMaps;
      pageList := pageList + e.pages;
    }

    /** `onCompletion`: the loading flag is lowered. */
    method OnCompletion()
      modifies this
      ensures !isLoadingPages
      ensures pageList == old(pageList) && headers == old(headers) && list == old(list)
      ensures currentChapter == old(currentChapter) && watched == old(watched)
    {
      isLoadingPages := false;
    }

    /**
     * `loadPages`: nothing happens without a flow; otherwise the flow is
     * started, each emission is taken in order, and the flow completes.
     */
    method LoadPages(flow: Option<seq<Emission>>)
      modifies this
      ensures flow.None? ==> pageList == old(pageList) && isLoadingPages == old(isLoadingPages) && headers == old(headers)
      ensures flow.Some? ==> pageList == AllPages(flow.value) && !isLoadingPages &&
                             headers == HeadersAfter(old(headers), flow.value)
      ensures list == old(list) && currentChapter == old(currentChapter) && watched == old(watched)
    {
      if flow.Some? {
        var es := flow.value;
        OnStart();
        for i := 0 to |es|
          invariant pageList == AllPages(es[..i])
          invariant headers == HeadersAfter(old(headers), es[..i])
          invariant isLoadingPages
          invariant list == old(list) && currentChapter == old(currentChapter) && watched == old(watched)
        {
          assert es[..i + 1] == es[..i] + [es[i]];
          FlatMapSnocEmission(es[..i], es[i]);
          PutMapsAppend(old(headers), FlatMap(es[..i], EmissionHeaders), es[i].headerMaps);
          OnEach(es[i]);
        }
        assert es[..|es|] == es;
        OnCompletion();
      }
    }

    /**
     * `addChapterToWatched`: the new index is always taken; only when it points
     * at a chapter is the chapter recorded as watched and its pages loaded
     * (without keeping headers). `info` is what loading a chapter's info emits.
     */
    method AddChapterToWatched(newChapter: int, info: ChapterModel -> seq<seq<Storage>>)
      modifies this
      ensures currentChapter == newChapter && list == old(list)
      ensures 0 <= newChapter < |list| ==>
                && watched == old(watched) + [ChapterWatched(list[newChapter].url, list[newChapter].name, mangaUrl)]
                && pageList == AllPages(ChapterFlow(info(list[newChapter]), false)) && !isLoadingPages
                && headers == HeadersAfter(old(headers), ChapterFlow(info(list[newChapter]), false))
      ensures !(0 <= newChapter < |list|) ==>
                watched == old(watched) && pageList == old(pageList) && isLoadingPages == old(isLoadingPages) &&
                headers == old(headers)
    {
      currentChapter := newChapter;
      if 0 <= newChapter < |list| {
        var item := list[newChapter];
        watched := watched + [ChapterWatched(item.url, item.name, mangaUrl)];
        LoadPages(Some(ChapterFlow(info(item), false)));
      }
    }

    /**
     * `refresh`: the headers are emptied, then the current chapter (if the index
     * points at one) is loaded again, keeping its headers.
     */
    method Refresh(info: ChapterModel -> seq<seq<Storage>>)
      modifies this
      ensures list == old(list) && currentChapter == old(currentChapter) && watched == old(watched)
      ensures 0 <= currentChapter < |list| ==>
                && pageList == AllPages(ChapterFlow(info(list[currentChapter]), true)) && !isLoadingPages
                && headers == HeadersAfter(map[], ChapterFlow(info(list[currentChapter]), true))
      ensures !(0 <= currentChapter < |list|) ==>
                headers == map[] && pageList == old(pageList) && isLoadingPages == old(isLoadingPages)
    {
      headers := map[];
      var flow := if 0 <= currentChapter < |list| then Some(ChapterFlow(info(list[currentChapter]), true)) else None;
      LoadPages(flow);
    }
  }

  /**
   * After `refresh` the headers are exactly those of the chapter's storages:
   * a header survives only if some storage of the reloaded chapter carries it.
   */
  lemma RefreshHeadersExact(info: seq<seq<Storage>>, k: string)
    ensures k in HeadersAfter(map[], ChapterFlow(info, true)) <==>
            exists i, j :: 0 <= i < |info| && 0 <= j < |info[i]| && k in info[i][j].headers
  {
    var es := ChapterFlow(info, true);
    var maps := FlatMap(es, EmissionHeaders);
    PutMapsSpec(map[], maps, k);
    if k in HeadersAfter(map[], es) {
      var m :| 0 <= m < |maps| && k in maps[m];
      var i := FlatMapFrom(es, EmissionHeaders, maps[m]);
      var j :| 0 <= j < |es[i].headerMaps| && es[i].headerMaps[j] == maps[m];
      assert k in info[i][j].headers;
    }
    if exists i, j :: 0 <= i < |info| && 0 <= j < |info[i]| && k in info[i][j].headers {
      var i, j :| 0 <= i < |info| && 0 <= j < |info[i]| && k in info[i][j].headers;
      FlatMapHas(es, EmissionHeaders, i, info[i][j].headers);
      var m :| 0 <= m < |maps| && maps[m] == info[i][j].headers;
    }
  }

  /** When chapter info is loaded without keeping headers, the headers stay as they were. */
  lemma {:induction false} NoHeadersKept(h: map<string, string>, info: seq<seq<Storage>>)
    ensures HeadersAfter(h, ChapterFlow(info, false)) == h
  {
    var es := ChapterFlow(info, false);
    NoMapsPut(es);
  }

  lemma {:induction false} NoMapsPut(es: seq<Emission>)
    requires forall i :: 0 <= i < |es| ==> es[i].headerMaps == []
    ensures FlatMap(es, EmissionHeaders) == []
  {
    if es != [] {
      NoMapsPut(es[..|es| - 1]);
    }
  }

  lemma {:induction false} FlatMapHas(es: seq<Emission>, f: Emission -> seq<map<string, string>>, i: nat,
                                      m: map<string, string>)
    requires i < |es| && m in f(es[i])
    ensures m in FlatMap(es, f)
  {
    if i < |es| - 1 {
      FlatMapHas(es[..|es| - 1], f, i, m);
    }
  }
}
