/**
 * The background update check (`UpdateWorker.createWork`) and the notifications
 * it posts (`UpdateNotification`). The database, Firebase and every source's
 * network answer are input values: the favourites are sequences, each source
 * carries the outcome of its `getRecent()` call, and the details of an item are
 * a function from its URL to the outcome of loading them.
 */
module UpdateChecker {
  import opened Collections

  /** A favourite, as stored locally (Room) and remotely (Firebase). */
  datatype DbModel = DbModel(
    title: string,
    description: string,
    url: string,
    imageUrl: string,
    source: string,
    numChapters: int)

  function Url(m: DbModel): string { m.url }

  /** The set of URLs of some favourites. */
  function Urls(list: seq<DbModel>): set<string>
  {
    set m | m in list :: m.url
  }

  // ------------------------------------------------------------ merging favourites

  /**
   * The position of the element `maxByOrNull(DbModel::numChapters)` returns:
   * it only moves to a later element whose count is strictly larger, so it is
   * the first of the copies with the largest count.
   */
  function MaxIndex(s: seq<DbModel>): (k: nat)
    requires s != []
    ensures k < |s|
    ensures forall j :: 0 <= j < |s| ==> s[j].numChapters <= s[k].numChapters
    ensures forall j :: 0 <= j < k ==> s[j].numChapters < s[k].numChapters
  {
    if |s| == 1 then 0
    else
      var k := MaxIndex(s[..|s| - 1]);
      if s[k].numChapters < s[|s| - 1].numChapters then |s| - 1 else k
  }

  /**
   * The local favourites and the Firebase shows, flattened, grouped by URL, and
   * of each group the copy with the most chapters.
   */
  function Merge(local: seq<DbModel>, remote: seq<DbModel>): (r: seq<DbModel>)
    ensures |r| == |GroupBy(local + remote, Url)|
  {
    var g := GroupBy(local + remote, Url);
    seq(|g|, i requires 0 <= i < |g| => g[i].items[MaxIndex(g[i].items)])
  }

  /** Entry `i` of the merge is a member of group `i`, so it has that group's URL. */
  lemma MergeAt(local: seq<DbModel>, remote: seq<DbModel>, i: nat)
    requires i < |Merge(local, remote)|
    ensures Merge(local, remote)[i] in GroupBy(local + remote, Url)[i].items
    ensures Merge(local, remote)[i].url == GroupBy(local + remote, Url)[i].key
  {
    var g := GroupBy(local + remote, Url);
    var k := MaxIndex(g[i].items);
    assert Merge(local, remote)[i] == g[i].items[k];
    GroupKeys(local + remote, Url);
  }

  /** The merge keeps one entry per URL and loses no URL. */
  lemma MergeUrls(local: seq<DbModel>, remote: seq<DbModel>)
    ensures forall i, j :: 0 <= i < j < |Merge(local, remote)| ==> Merge(local, remote)[i].url != Merge(local, remote)[j].url
    ensures Urls(Merge(local, remote)) == Urls(local + remote)
  {
    var all := local + remote;
    var r := Merge(local, remote);
    forall i | 0 <= i < |r| ensures r[i].url == GroupBy(all, Url)[i].key && r[i] in all {
      MergeAt(local, remote, i);
      GroupByMembers(all, Url);
    }
    forall u | u in Urls(all) ensures u in Urls(r) {
      var m :| m in all && m.url == u;
      var i := GroupOf(all, Url, m);
      MergeAt(local, remote, i);
    }
  }

  /**
   * Each entry of the merge is one of the inputs, with the largest count among
   * the inputs that have its URL.
   */
  lemma MergeKeepsMax(local: seq<DbModel>, remote: seq<DbModel>)
    ensures forall m :: m in Merge(local, remote) ==> m in local + remote
    ensures forall m, n :: m in Merge(local, remote) && n in local + remote && n.url == m.url ==>
              n.numChapters <= m.numChapters
  {
    var all := local + remote;
    var g := GroupBy(all, Url);
    var r := Merge(local, remote);
    forall m | m in r ensures m in all {
      var i :| 0 <= i < |r| && r[i] == m;
      MergeAt(local, remote, i);
      GroupByMembers(all, Url);
      assert m in Members(all, Url, g[i].key);
    }
    forall m, n | m in r && n in all && n.url == m.url ensures n.numChapters <= m.numChapters {
      var i :| 0 <= i < |r| && r[i] == m;
      MergeAt(local, remote, i);
      GroupByMembers(all, Url);
      assert n in Members(all, Url, g[i].key);
      var j :| 0 <= j < |g[i].items| && g[i].items[j] == n;
    }
  }

  // ------------------------------------------------------------ polling the sources

  /** An item of a source's "recent" list (`ItemModel`). */
  datatype RecentItem = RecentItem(title: string, url: string, source: string)

  /** The outcome of a source's `getRecent().blockingGet()`. */
  datatype RecentFetch = RecentFailed | Recent(items: seq<RecentItem>)

  /** A source (`ApiService`) with the answer its recent list would give. */
  datatype ApiService = ApiService(serviceName: string, recent: RecentFetch)

  /** A source is polled only when some favourite comes from it. */
  predicate Polled(s: ApiService, list: seq<DbModel>)
  {
    exists m :: m in list && m.source == s.serviceName
  }

  /**
   * The recent items of the polled sources, source after source. A source
   * whose fetch throws contributes nothing and the run goes on.
   */
  function RecentItems(sources: seq<ApiService>, list: seq<DbModel>): seq<RecentItem>
  {
    if sources == [] then []
    else
      (if Polled(sources[0], list) && sources[0].recent.Recent? then sources[0].recent.items else [])
      + RecentItems(sources[1..], list)
  }

  /** An item is fetched exactly when it is in the recent list of a polled source that answered. */
  lemma {:induction false} RecentItemsFrom(sources: seq<ApiService>, list: seq<DbModel>, n: RecentItem)
    ensures n in RecentItems(sources, list) <==>
            exists s :: s in sources && Polled(s, list) && s.recent.Recent? && n in s.recent.items
  {
    if sources != [] {
      RecentItemsFrom(sources[1..], list, n);
      assert forall s :: s in sources <==> s == sources[0] || s in sources[1..];
    }
  }

  lemma {:induction false} RecentItemsAppend(a: seq<ApiService>, b: seq<ApiService>, list: seq<DbModel>)
    ensures RecentItems(a + b, list) == RecentItems(a, list) + RecentItems(b, list)
  {
    if a != [] {
      assert (a + b)[1..] == a[1..] + b;
      RecentItemsAppend(a[1..], b, list);
    } else {
      assert a + b == b;
    }
  }

  /** A source whose fetch throws can be taken away without changing what is fetched. */
  lemma FailingSourceIgnored(a: seq<ApiService>, s: ApiService, b: seq<ApiService>, list: seq<DbModel>)
    requires s.recent.RecentFailed?
    ensures RecentItems(a + [s] + b, list) == RecentItems(a + b, list)
  {
    RecentItemsAppend(a + [s], b, list);
    RecentItemsAppend(a, [s], list);
    RecentItemsAppend(a, b, list);
    assert RecentItems([s], list) == [];
  }

  /** The favourite's URL matches some fetched recent item. */
  predicate InRecent(m: DbModel, recent: seq<RecentItem>)
  {
    exists n :: n in recent && n.url == m.url
  }

  /**
   * `list.intersect(recent) { o, n -> o.url == n.url }`: the favourites, in
   * order, that match some recent item by URL.
   */
  function Intersect(list: seq<DbModel>, recent: seq<RecentItem>): (r: seq<DbModel>)
    ensures forall m :: m in r <==> m in list && InRecent(m, recent)
  {
    if list == [] then []
    else
      var init, last := list[..|list| - 1], list[|list| - 1];
      assert list == init + [last];
      Intersect(init, recent) + (if InRecent(last, recent) then [last] else [])
  }

  /**
   * `distinctBy { it.url }`: the first element of each URL, in order of first
   * appearance, which is the first element of each `groupBy(url)` group.
   */
  function DistinctByUrl(list: seq<DbModel>): (r: seq<DbModel>)
    ensures |r| == |GroupBy(list, Url)|
  {
    var g := GroupBy(list, Url);
    seq(|g|, i requires 0 <= i < |g| => g[i].items[0])
  }

  /** Entry `i` of `distinctBy` is the first member of group `i`, so it has that group's URL. */
  lemma DistinctAt(list: seq<DbModel>, i: nat)
    requires i < |DistinctByUrl(list)|
    ensures DistinctByUrl(list)[i] in GroupBy(list, Url)[i].items
    ensures DistinctByUrl(list)[i].url == GroupBy(list, Url)[i].key
  {
    var g := GroupBy(list, Url);
    assert DistinctByUrl(list)[i] == g[i].items[0];
    GroupKeys(list, Url);
  }

  /**
   * `distinctBy` keeps one element per URL, each an element of the list, and
   * loses no URL; the element kept is the first with its URL, and the kept
   * elements are in the order of the list.
   */
  lemma DistinctByUrlSpec(list: seq<DbModel>)
    ensures forall i, j :: 0 <= i < j < |DistinctByUrl(list)| ==> DistinctByUrl(list)[i].url != DistinctByUrl(list)[j].url
    ensures forall m :: m in DistinctByUrl(list) ==> m in list
    ensures Urls(DistinctByUrl(list)) == Urls(list)
    ensures forall i :: 0 <= i < |DistinctByUrl(list)| ==>
              FirstAt(list, Url, DistinctByUrl(list)[i].url) < |list| &&
              DistinctByUrl(list)[i] == list[FirstAt(list, Url, DistinctByUrl(list)[i].url)]
    ensures forall i, j :: 0 <= i < j < |DistinctByUrl(list)| ==>
              FirstAt(list, Url, DistinctByUrl(list)[i].url) < FirstAt(list, Url, DistinctByUrl(list)[j].url)
  {
    var r := DistinctByUrl(list);
    var g := GroupBy(list, Url);
    GroupByFirstOrder(list, Url);
    forall i | 0 <= i < |r| ensures r[i].url == g[i].key && r[i] in list {
      DistinctAt(list, i);
      GroupByMembers(list, Url);
      assert r[i] in Members(list, Url, g[i].key);
    }
    forall u | u in Urls(list) ensures u in Urls(r) {
      var m :| m in list && m.url == u;
      var i := GroupOf(list, Url, m);
      DistinctAt(list, i);
    }
  }

  /** A list whose URLs are already distinct comes out of `distinctBy` unchanged. */
  lemma DistinctByUrlUnique(list: seq<DbModel>)
    requires forall i, j :: 0 <= i < j < |list| ==> list[i].url != list[j].url
    ensures DistinctByUrl(list) == list
  {
    var r := DistinctByUrl(list);
    DistinctByUrlSpec(list);
    var f := seq(|r|, i requires 0 <= i < |r| => FirstAt(list, Url, r[i].url));
    forall k | 0 <= k < |list| ensures k in f {
      assert list[k].url in Urls(list);
      var m :| m in r && m.url == list[k].url;
      var i :| 0 <= i < |r| && r[i] == m;
      assert f[i] == k;
    }
    IncreasingOnto(r, list, f);
  }

  /** Lines 68-80: the merged favourites that appear among the fetched recent items, one per URL. */
  function CheckList(merged: seq<DbModel>, sources: seq<ApiService>): seq<DbModel>
  {
    DistinctByUrl(Intersect(merged, RecentItems(sources, merged)))
  }

  /**
   * What is checked: only favourites whose URL is in a polled source's recent
   * list, each URL once, and every such URL of the favourites.
   */
  lemma CheckListSpec(merged: seq<DbModel>, sources: seq<ApiService>)
    ensures forall i, j :: 0 <= i < j < |CheckList(merged, sources)| ==>
              CheckList(merged, sources)[i].url != CheckList(merged, sources)[j].url
    ensures forall m :: m in CheckList(merged, sources) ==>
              m in merged && InRecent(m, RecentItems(sources, merged))
    ensures Urls(CheckList(merged, sources)) ==
            (set m | m in merged && InRecent(m, RecentItems(sources, merged)) :: m.url)
  {
    var recent := RecentItems(sources, merged);
    var x := Intersect(merged, recent);
    DistinctByUrlSpec(x);
    assert Urls(x) == (set m | m in merged && InRecent(m, recent) :: m.url);
  }

  // ------------------------------------------------------------ diffing chapter counts

  datatype Chapter = Chapter(name: string, url: string)

  /**
   * Loading an item's details: the call threw, the item's source is unknown
   * (`sourceFromString` gave null), or the details with their chapters.
   */
  datatype InfoFetch = InfoFailed | NoSource | Info(chapters: seq<Chapter>)

  /** `newData?.chapters?.size ?: -1`. */
  function FetchedCount(f: InfoFetch): int
    requires !f.InfoFailed?
  {
    if f.Info? then |f.chapters| else -1
  }

  /** An item is reported when its details loaded and hold strictly more chapters than stored. */
  predicate IsNewer(m: DbModel, f: InfoFetch)
  {
    !f.InfoFailed? && m.numChapters < FetchedCount(f)
  }

  /** `Pair(newData, model)`: the loaded details (null when the source was unknown) and the favourite. */
  datatype Report = Report(info: Option<seq<Chapter>>, model: DbModel)

  /**
   * Lines 91-103: `mapIndexedNotNull` over the checked list. An exception
   * yields nothing; otherwise the favourite is reported unless its stored count
   * is at least the fetched one.
   */
  function Diff(list: seq<DbModel>, fetch: string -> InfoFetch): seq<Report>
  {
    if list == [] then []
    else
      var init, m := list[..|list| - 1], list[|list| - 1];
      var f := fetch(m.url);
      Diff(init, fetch) +
        (if f.InfoFailed? || m.numChapters >= FetchedCount(f) then []
         else [Report(if f.Info? then Some(f.chapters) else None, m)])
  }

  /** A favourite is reported exactly when its fetched count is strictly larger, with what was fetched. */
  lemma {:induction false} DiffReportsExactlyNewer(list: seq<DbModel>, fetch: string -> InfoFetch)
    ensures forall r :: r in Diff(list, fetch) ==>
              r.model in list && IsNewer(r.model, fetch(r.model.url)) &&
              r.info == (if fetch(r.model.url).Info? then Some(fetch(r.model.url).chapters) else None)
    ensures forall m :: m in list && IsNewer(m, fetch(m.url)) ==> exists r :: r in Diff(list, fetch) && r.model == m
  {
    if list != [] {
      var init, m := list[..|list| - 1], list[|list| - 1];
      assert list == init + [m];
      DiffReportsExactlyNewer(init, fetch);
      if IsNewer(m, fetch(m.url)) {
        var f := fetch(m.url);
        assert Report(if f.Info? then Some(f.chapters) else None, m) in Diff(list, fetch);
      }
    }
  }

  /** A list none of whose favourites is newer produces no report. */
  lemma {:induction false} DiffEmpty(list: seq<DbModel>, fetch: string -> InfoFetch)
    requires forall i :: 0 <= i < |list| ==> !IsNewer(list[i], fetch(list[i].url))
    ensures Diff(list, fetch) == []
  {
    if list != [] {
      DiffEmpty(list[..|list| - 1], fetch);
    }
  }

  /** When the source is unknown the count compares as -1, so a favourite with a count of -1 or more is not reported. */
  lemma NoSourceNoReport(m: DbModel)
    requires m.numChapters >= -1
    ensures !IsNewer(m, NoSource)
  {
  }

  /** Lines 59-103 end to end: the reports of one run of the worker. */
  function CheckForUpdates(local: seq<DbModel>, remote: seq<DbModel>, sources: seq<ApiService>,
                           fetch: string -> InfoFetch): seq<Report>
  {
    Diff(CheckList(Merge(local, remote), sources), fetch)
  }

  /**
   * Nothing is reported that is not strictly newer: a reported favourite is
   * one of the stored copies, its URL is in the recent list of a polled source
   * that answered, and its fetched count exceeds the count of every stored
   * copy with that URL.
   */
  lemma ReportedOnlyWhenNewer(local: seq<DbModel>, remote: seq<DbModel>, sources: seq<ApiService>,
                              fetch: string -> InfoFetch, r: Report)
    requires r in CheckForUpdates(local, remote, sources, fetch)
    ensures r.model in local + remote
    ensures exists s, n :: s in sources && Polled(s, Merge(local, remote)) && s.recent.Recent? &&
              n in s.recent.items && n.url == r.model.url
    ensures IsNewer(r.model, fetch(r.model.url))
    ensures forall m :: m in local + remote && m.url == r.model.url ==>
              m.numChapters < FetchedCount(fetch(r.model.url))
  {
    var merged := Merge(local, remote);
    MergeKeepsMax(local, remote);
    var checked := CheckList(merged, sources);
    DiffReportsExactlyNewer(checked, fetch);
    assert r.model in checked && IsNewer(r.model, fetch(r.model.url));
    CheckListSpec(merged, sources);
    assert r.model in merged && InRecent(r.model, RecentItems(sources, merged));
    var i :| 0 <= i < |merged| && merged[i] == r.model;
    var n :| n in RecentItems(sources, merged) && n.url == r.model.url;
    RecentItemsFrom(sources, merged, n);
  }

  // ------------------------------------------------------------ writing counts back

  /** `it.first?.chapters?.size ?: item.numChapters`. */
  function UpdatedCount(r: Report): int
  {
    if r.info.Some? then |r.info.value| else r.model.numChapters
  }

  /** The favourites as `updateManga` leaves them: the fetched count written into each. */
  function Updated(reports: seq<Report>): (written: seq<DbModel>)
    ensures |written| == |reports|
  {
    seq(|reports|, i requires 0 <= i < |reports| => reports[i].model.(numChapters := UpdatedCount(reports[i])))
  }

  /**
   * `updateManga`: for each report, the favourite's count becomes the fetched
   * count (unchanged when no details were fetched), and the favourite is written
   * to the database and to Firebase. The result is what is written, in order.
   */
  method UpdateManga(reports: seq<Report>) returns (written: seq<DbModel>)
    ensures written == Updated(reports)
    ensures forall i :: 0 <= i < |reports| ==>
              written[i].url == reports[i].model.url && written[i].title == reports[i].model.title &&
              written[i].source == reports[i].model.source
  {
    written := [];
    for i := 0 to |reports|
      invariant |written| == i
      invariant forall k :: 0 <= k < i ==>
                  written[k] == reports[k].model.(numChapters := UpdatedCount(reports[k]))
    {
      var item := reports[i].model;
      item := item.(numChapters := if reports[i].info.Some? then |reports[i].info.value| else item.numChapters);
      written := written + [item];
    }
  }

  /** Every written count is strictly larger than the stored one (when stored counts are at least -1). */
  lemma {:induction false} WrittenCountsGrow(list: seq<DbModel>, fetch: string -> InfoFetch)
    requires forall m :: m in list ==> m.numChapters >= -1
    ensures forall i :: 0 <= i < |Diff(list, fetch)| ==>
              Updated(Diff(list, fetch))[i].numChapters > Diff(list, fetch)[i].model.numChapters
  {
    DiffReportsExactlyNewer(list, fetch);
    var d := Diff(list, fetch);
    forall i | 0 <= i < |d| ensures Updated(d)[i].numChapters > d[i].model.numChapters {
      assert d[i] in d;
    }
  }

  /** Checking again right after the write-back, with the same details, reports nothing. */
  lemma {:induction false} RecheckReportsNothing(list: seq<DbModel>, fetch: string -> InfoFetch)
    requires forall m :: m in list ==> m.numChapters >= -1
    ensures Diff(Updated(Diff(list, fetch)), fetch) == []
  {
    var d := Diff(list, fetch);
    DiffReportsExactlyNewer(list, fetch);
    var w := Updated(d);
    forall i | 0 <= i < |w| ensures !IsNewer(w[i], fetch(w[i].url)) {
      assert d[i] in d;
    }
    DiffEmpty(w, fetch);
  }

  // ------------------------------------------------------------ notifications

  datatype Notification =
    | Update(title: string, source: string, chapterName: string)
    | Summary(count: int)
    | Running(max: int, progress: int, indeterminate: bool, text: string)
    | Finished

  /** The id of the progress notification and of the group summary. */
  const RunningId: int := 13
  const SummaryId: int := 42

  /** The progress notification: a bar of `max` steps at `progress`, indeterminate while at 0. */
  function RunningNotification(max: int, progress: int, text: string): Notification
  {
    Running(max, progress, progress == 0, text)
  }

  /** The progress notifications the diff posts under id 13, one per checked favourite. */
  function DiffProgress(list: seq<DbModel>): (ps: seq<(int, Notification)>)
    ensures |ps| == |list|
    ensures forall i :: 0 <= i < |list| ==> ps[i] == (RunningId, RunningNotification(|list|, i, list[i].title))
  {
    seq(|list|, i requires 0 <= i < |list| => (RunningId, RunningNotification(|list|, i, list[i].title)))
  }

  /** `chapters.firstOrNull()?.name ?: ""`. */
  function FirstChapterName(info: Option<seq<Chapter>>): string
  {
    if info.Some? && info.value != [] then info.value[0].name else ""
  }

  /**
   * `mapDbModel`: one notification per report, under the hash code of the
   * (already updated) favourite, titled by the favourite and naming the first
   * fetched chapter.
   */
  function MapDbModel(reports: seq<Report>, hash: DbModel -> int): (ns: seq<(int, Notification)>)
    ensures |ns| == |reports|
    ensures forall i :: 0 <= i < |reports| ==>
              ns[i].0 == hash(Updated(reports)[i]) &&
              ns[i].1 == Update(reports[i].model.title, reports[i].model.source, FirstChapterName(reports[i].info))
  {
    var w := Updated(reports);
    seq(|reports|, i requires 0 <= i < |reports| =>
      (hash(w[i]), Update(reports[i].model.title, reports[i].model.source, FirstChapterName(reports[i].info))))
  }

  /** The ids of the update notifications are the hash codes of the written favourites. */
  lemma MapDbModelIds(reports: seq<Report>, hash: DbModel -> int)
    ensures Ids(MapDbModel(reports, hash)) == set w | w in Updated(reports) :: hash(w)
  {
    var ns, w := MapDbModel(reports, hash), Updated(reports);
    forall id | id in Ids(ns) ensures id in set v | v in w :: hash(v) {
      var p :| p in ns && p.0 == id;
      var i :| 0 <= i < |ns| && ns[i] == p;
      assert w[i] in w;
    }
    forall id | id in set v | v in w :: hash(v) ensures id in Ids(ns) {
      var v :| v in w && hash(v) == id;
      var i :| 0 <= i < |w| && w[i] == v;
      assert ns[i] in ns;
    }
  }

  /** The progress notifications `mapDbModel` posts, one per report, under id 13. */
  function MapProgress(reports: seq<Report>): (ps: seq<(int, Notification)>)
    ensures |ps| == |reports|
    ensures forall i :: 0 <= i < |reports| ==> ps[i] == (RunningId, RunningNotification(|reports|, i, reports[i].model.title))
  {
    seq(|reports|, i requires 0 <= i < |reports| => (RunningId, RunningNotification(|reports|, i, reports[i].model.title)))
  }

  /** The notification manager: what is showing, by id, and every `notify` call made. */
  class NotificationCenter {
    var active: map<int, Notification>
    var posted: seq<(int, Notification)>

    constructor (showing: map<int, Notification>)
      ensures active == showing && posted == []
    {
      active := showing;
      posted := [];
    }

    /** `notify(id, n)`: shows `n` under `id`, replacing what was shown there. */
    method Notify(id: int, n: Notification)
      modifies this
      ensures active == old(active)[id := n]
      ensures posted == old(posted) + [(id, n)]
    {
      active := active[id := n];
      posted := posted + [(id, n)];
    }
  }

  /** `sendRunningNotification`: the progress notification, always under id 13. */
  method SendRunningNotification(nc: NotificationCenter, max: int, progress: int, text: string)
    modifies nc
    ensures nc.active == old(nc.active)[RunningId := RunningNotification(max, progress, text)]
    ensures nc.posted == old(nc.posted) + [(RunningId, RunningNotification(max, progress, text))]
    ensures nc.active[RunningId].indeterminate <==> progress == 0
  {
    nc.Notify(RunningId, RunningNotification(max, progress, text));
  }

  function Ids(list: seq<(int, Notification)>): set<int>
  {
    set p | p in list :: p.0
  }

  /**
   * The count in the group summary: the new notifications plus the showing
   * ones whose id is not among them, minus one.
   */
  function SummaryCount(showing: set<int>, list: seq<(int, Notification)>): int
  {
    |list| + (|showing - Ids(list)| - 1)
  }

  /** One `notify` per pair, in order. */
  method NotifyAll(nc: NotificationCenter, list: seq<(int, Notification)>)
    modifies nc
    ensures nc.posted == old(nc.posted) + list
    ensures nc.active == PutAll(old(nc.active), list)
  {
    ghost var active0, posted0 := nc.active, nc.posted;
    for i := 0 to |list|
      invariant nc.posted == posted0 + list[..i]
      invariant nc.active == PutAll(active0, list[..i])
    {
      nc.Notify(list[i].0, list[i].1);
      PutAllSnoc(active0, list[..i], list[i]);
      assert list[..i + 1] == list[..i] + [list[i]];
    }
    assert list[..|list|] == list;
  }

  /**
   * `onEnd`: one `notify` per pair under the pair's id, in order, then the
   * group summary under id 42 when the list is not empty.
   */
  method OnEnd(nc: NotificationCenter, list: seq<(int, Notification)>)
    modifies nc
    ensures nc.posted == old(nc.posted) + list +
              (if list == [] then [] else [(SummaryId, Summary(SummaryCount(old(nc.active).Keys, list)))])
    ensures nc.active == if list == [] then PutAll(old(nc.active), list)
                         else PutAll(old(nc.active), list)[SummaryId := Summary(SummaryCount(old(nc.active).Keys, list))]
  {
    var count := SummaryCount(nc.active.Keys, list);
    NotifyAll(nc, list);
    if list != [] {
      nc.Notify(SummaryId, Summary(count));
    }
  }

  lemma IdsCardinality(list: seq<(int, Notification)>)
    requires forall i, j :: 0 <= i < j < |list| ==> list[i].0 != list[j].0
    ensures |Ids(list)| == |list|
  {
    var ids := seq(|list|, i requires 0 <= i < |list| => list[i].0);
    DistinctCardinality(ids);
    forall x | x in Ids(list) ensures x in ids {
      var p :| p in list && p.0 == x;
      var i :| 0 <= i < |list| && list[i] == p;
      assert ids[i] == x;
    }
    forall x | x in ids ensures x in Ids(list) {
      var i :| 0 <= i < |ids| && ids[i] == x;
      assert list[i] in list;
    }
    assert (set x | x in ids) == Ids(list);
  }

  /**
   * What the summary count means: when the progress notification (13) is
   * showing, no earlier summary (42) is, and the new ids are distinct and
   * differ from both, the count is the number of update notifications showing
   * once `onEnd` is done: everything but 13 and 42.
   */
  lemma SummaryCountsShownUpdates(showing: set<int>, list: seq<(int, Notification)>)
    requires RunningId in showing && SummaryId !in showing
    requires RunningId !in Ids(list) && SummaryId !in Ids(list)
    requires forall i, j :: 0 <= i < j < |list| ==> list[i].0 != list[j].0
    ensures SummaryCount(showing, list) == |(showing + Ids(list) + {SummaryId}) - {RunningId, SummaryId}|
  {
    IdsCardinality(list);
    var rest := showing - Ids(list) - {RunningId};
    assert (showing + Ids(list) + {SummaryId}) - {RunningId, SummaryId} == rest + Ids(list);
    assert rest !! Ids(list);
    assert showing - Ids(list) == rest + {RunningId};
  }

  /** When a summary from an earlier run is still showing, it is counted too: one more than the updates shown. */
  lemma SummaryCountsStaleSummary(showing: set<int>, list: seq<(int, Notification)>)
    requires RunningId in showing && SummaryId in showing
    requires RunningId !in Ids(list) && SummaryId !in Ids(list)
    requires forall i, j :: 0 <= i < j < |list| ==> list[i].0 != list[j].0
    ensures SummaryCount(showing, list) == |(showing + Ids(list) + {SummaryId}) - {RunningId, SummaryId}| + 1
  {
    IdsCardinality(list);
    var rest := showing - Ids(list) - {RunningId, SummaryId};
    assert (showing + Ids(list) + {SummaryId}) - {RunningId, SummaryId} == rest + Ids(list);
    assert rest !! Ids(list);
    assert showing - Ids(list) == rest + {RunningId, SummaryId};
  }

  /**
   * `mapDbModel`: for each report, in order, the progress notification is
   * posted, then the report's update notification is built (not posted).
   */
  method MapDbModelPosting(nc: NotificationCenter, reports: seq<Report>, hash: DbModel -> int)
    returns (ns: seq<(int, Notification)>)
    modifies nc
    ensures ns == MapDbModel(reports, hash)
    ensures nc.posted == old(nc.posted) + MapProgress(reports)
    ensures nc.active == if reports == [] then old(nc.active)
                         else old(nc.active)[RunningId := RunningNotification(|reports|, |reports| - 1, reports[|reports| - 1].model.title)]
  {
    ghost var active0, posted0 := nc.active, nc.posted;
    ghost var ps, all := MapProgress(reports), MapDbModel(reports, hash);
    var written := Updated(reports);
    ns := [];
    for i := 0 to |reports|
      invariant ns == all[..i]
      invariant nc.posted == posted0 + ps[..i]
      invariant nc.active == if i == 0 then active0
                             else active0[RunningId := RunningNotification(|reports|, i - 1, reports[i - 1].model.title)]
    {
      SendRunningNotification(nc, |reports|, i, reports[i].model.title);
      assert ps[..i + 1] == ps[..i] + [ps[i]];
      ns := ns + [(hash(written[i]), Update(reports[i].model.title, reports[i].model.source, FirstChapterName(reports[i].info)))];
      assert all[..i + 1] == all[..i] + [all[i]];
    }
    assert ps[..|reports|] == ps;
    assert all[..|reports|] == all;
  }

  /**
   * Lines 111-115, the end of a check: the counts are written back, the
   * progress and update notifications are posted, and the summary counts the
   * showing notifications once progress (13) is among them.
   */
  method FinishCheck(nc: NotificationCenter, reports: seq<Report>, hash: DbModel -> int)
    returns (written: seq<DbModel>)
    modifies nc
    ensures written == Updated(reports)
    ensures nc.posted == old(nc.posted) + MapProgress(reports) + MapDbModel(reports, hash) +
              (if reports == [] then []
               else [(SummaryId, Summary(SummaryCount(old(nc.active).Keys + {RunningId}, MapDbModel(reports, hash))))])
  {
    written := UpdateManga(reports);
    ghost var active0 := nc.active;
    var ns := MapDbModelPosting(nc, reports, hash);
    assert nc.active.Keys == if reports == [] then active0.Keys else active0.Keys + {RunningId};
    OnEnd(nc, ns);
  }

  /**
   * Lines 91-102, the diff: before each favourite is fetched the progress
   * notification shows its index and title; the favourites whose fetched
   * count grew are reported, in list order.
   */
  method DiffPosting(nc: NotificationCenter, list: seq<DbModel>, fetch: string -> InfoFetch)
    returns (reports: seq<Report>)
    modifies nc
    ensures reports == Diff(list, fetch)
    ensures nc.posted == old(nc.posted) + DiffProgress(list)
    ensures nc.active == if list == [] then old(nc.active)
                         else old(nc.active)[RunningId := RunningNotification(|list|, |list| - 1, list[|list| - 1].title)]
  {
    ghost var active0, posted0 := nc.active, nc.posted;
    ghost var ps := DiffProgress(list);
    reports := [];
    for i := 0 to |list|
      invariant reports == Diff(list[..i], fetch)
      invariant nc.posted == posted0 + ps[..i]
      invariant nc.active == if i == 0 then active0
                             else active0[RunningId := RunningNotification(|list|, i - 1, list[i - 1].title)]
    {
      SendRunningNotification(nc, |list|, i, list[i].title);
      assert ps[..i + 1] == ps[..i] + [ps[i]];
      var m := list[i];
      var f := fetch(m.url);
      assert list[..i + 1][..i] == list[..i] && list[..i + 1][i] == m;
      if !(f.InfoFailed? || m.numChapters >= FetchedCount(f)) {
        reports := reports + [Report(if f.Info? then Some(f.chapters) else None, m)];
      }
    }
    assert ps[..|list|] == ps;
    assert list[..|list|] == list;
  }

  /**
   * Lines 82-115, a whole check after the favourites are gathered: the diff
   * posts its progress, then the grown favourites are written back, their
   * progress and update notifications are posted, and the summary follows
   * when any favourite grew.
   */
  method CheckAndNotify(nc: NotificationCenter, list: seq<DbModel>, fetch: string -> InfoFetch, hash: DbModel -> int)
    returns (written: seq<DbModel>)
    modifies nc
    ensures written == Updated(Diff(list, fetch))
    ensures nc.posted == old(nc.posted) + DiffProgress(list) + MapProgress(Diff(list, fetch)) + MapDbModel(Diff(list, fetch), hash) +
              (if Diff(list, fetch) == [] then []
               else [(SummaryId, Summary(SummaryCount(old(nc.active).Keys + {RunningId}, MapDbModel(Diff(list, fetch), hash))))])
  {
    ghost var active0 := nc.active;
    var reports := DiffPosting(nc, list, fetch);
    assert nc.active.Keys + {RunningId} == active0.Keys + {RunningId};
    written := FinishCheck(nc, reports, hash);
  }

  /**
   * At the end of a check with updates, when the hash codes of the written
   * favourites are distinct and differ from 13 and 42 and no summary is
   * showing, the summary counts exactly the update notifications showing
   * afterwards: the new ones and those left from before.
   */
  lemma FinishedSummaryCountsUpdates(showing: set<int>, reports: seq<Report>, hash: DbModel -> int)
    requires SummaryId !in showing
    requires forall i, j :: 0 <= i < j < |reports| ==> hash(Updated(reports)[i]) != hash(Updated(reports)[j])
    requires forall i :: 0 <= i < |reports| ==> hash(Updated(reports)[i]) != RunningId && hash(Updated(reports)[i]) != SummaryId
    ensures SummaryCount(showing + {RunningId}, MapDbModel(reports, hash)) ==
            |(showing + Ids(MapDbModel(reports, hash)) + {SummaryId}) - {RunningId, SummaryId}|
  {
    var ns := MapDbModel(reports, hash);
    MapDbModelIds(reports, hash);
    assert (showing + {RunningId} + Ids(ns) + {SummaryId}) - {RunningId, SummaryId} ==
           (showing + Ids(ns) + {SummaryId}) - {RunningId, SummaryId};
    SummaryCountsShownUpdates(showing + {RunningId}, ns);
  }
}
