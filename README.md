# OtakuWorld core, modelled in Dafny

OtakuWorld is a family of Android apps (anime, manga, novels) built around
pluggable sources. This project models four pieces of its core and proves
properties about them:

- **The update checker** (`UpdateWorker` and `UpdateNotification`). It merges
  the local and the Firebase favourites, keeping one entry per URL, the one
  with the most chapters. It keeps those that appear in a polled source's
  recent list, asks each source for the current chapter count, and writes
  back the favourites that grew. It then posts one notification per update
  and a group summary.
- **The Crunchyroll source**:
  - the session cookie jar that `get` and `post` merge into each request and
    update from each response;
  - the classification of episodes into subbed, dubbed and dropped seasons;
  - the stream filter that titles each kept stream "Hardsub" or "Raw";
  - the description fallback;
  - the search filter with its thumbnail rewrite.
- **The manga reader's view model** (`ReadViewModel`):
  - the order of a downloaded chapter's pages (by the number before the
    first '.' of the file name, or no page at all when a name is not a
    number);
  - the lookup of the chapter being read;
  - the state changed by loading pages, by marking a chapter as watched and
    by a refresh.
- **The downloaded-chapters screen** (`DownloadViewerFragment`):
  - the pages grouped by manga folder and then by chapter folder;
  - the chapter and page counts it shows, and its empty state;
  - the swipe that asks to delete a chapter.

Modules:

- `Collections`: Kotlin's `groupBy`, `distinctBy`, `filter`, `flatMap`,
  `sortedBy` and `putAll`.
- `Text`: `trim`, `contains`, `replace`, `split(".").first()`, `toInt` and
  template rendering of `null`.
- `UpdateChecker`, `Crunchyroll`, `Reader` and `DownloadViewer`: one per
  source file.

Where the source updates objects in place, the model does too. The
notification manager, the cookie jar, the streams whose `title` is set, and
the reader's view model are classes with `modifies` clauses. The loops of the
source (`updateManga`, `onEnd`, the episode loop, the stream loop) are
methods with loop invariants, each proved against a specification function.
Flows and `Single`s are modelled by the values they emit, collected to the
end inside the call that starts them.

`sortedBy` never reads the key of a list of one file, so a folder holding a
single file shows that file whatever its name (`Reader.PageOrderSingle`).

## Model

| member | source | states |
|---|---|---|
| Collections.GroupBy | UIViews/src/main/java/com/programmersbox/uiviews/UpdateChecker.kt:62 | `groupBy` never makes an empty group and never repeats a key |
| Collections.GroupByItems | UIViews/src/main/java/com/programmersbox/uiviews/UpdateChecker.kt:62 | each group holds exactly the inputs with its key, in input order |
| Collections.GroupByKeys | UIViews/src/main/java/com/programmersbox/uiviews/UpdateChecker.kt:62 | a key has a group exactly when some input has that key |
| Collections.GroupByFirstOrder | UIViews/src/main/java/com/programmersbox/uiviews/UpdateChecker.kt:62 | the groups come in the order in which their keys first occur, and each starts with the first input with its key |
| Collections.GroupByIsPermutation | mangaworld/src/main/java/com/programmersbox/mangaworld/DownloadViewerFragment.kt:98 | the groups together hold the inputs, each as often as in the input |
| Collections.GroupOf | mangaworld/src/main/java/com/programmersbox/mangaworld/DownloadViewerFragment.kt:98 | every input lies in the group of its key and in no other group |
| Collections.GroupCount | mangaworld/src/main/java/com/programmersbox/mangaworld/DownloadViewerFragment.kt:101 | there are as many groups as distinct keys among the inputs |
| Collections.Filter | UIViews/src/main/java/com/programmersbox/uiviews/UpdateChecker.kt:70 | `filter` keeps exactly the elements that pass the test |
| Collections.FlatMapFrom | UIViews/src/main/java/com/programmersbox/uiviews/UpdateChecker.kt:78 | every element of a `flatMap` comes from the list of some input |
| Collections.PutAll | anime_sources/src/main/java/com/programmersbox/anime_sources/anime/Crunchyroll.kt:76-84 | `putAll` adds exactly the pairs' keys, and a key no pair names keeps its value |
| Collections.PutAllLastWins | anime_sources/src/main/java/com/programmersbox/anime_sources/anime/Crunchyroll.kt:76-84 | after `putAll`, a key's value is the one of the last pair that names it |
| Collections.SortBy | mangaworld/src/main/java/com/programmersbox/mangaworld/reader/ReadViewModel.kt:67 | `sortedBy` returns a permutation of its input |
| Collections.SortBySorted | mangaworld/src/main/java/com/programmersbox/mangaworld/reader/ReadViewModel.kt:67 | `sortedBy` returns the elements in non-decreasing key order |
| Collections.SortByKeepsOrderOfKey | mangaworld/src/main/java/com/programmersbox/mangaworld/reader/ReadViewModel.kt:67 | `sortedBy` is stable: elements with equal keys keep their input order |
| Text.Trim | anime_sources/src/main/java/com/programmersbox/anime_sources/anime/Crunchyroll.kt:267 | `trim` gives the text between the leading and the trailing whitespace, with no whitespace at either end |
| Text.TrimIdempotent | anime_sources/src/main/java/com/programmersbox/anime_sources/anime/Crunchyroll.kt:267 | trimming a trimmed name changes nothing |
| Text.ContainsIffOccurs | anime_sources/src/main/java/com/programmersbox/anime_sources/anime/Crunchyroll.kt:281 | `contains` holds exactly when the text occurs at some position |
| Text.LowerFolds | anime_sources/src/main/java/com/programmersbox/anime_sources/anime/Crunchyroll.kt:80 | lower-casing leaves no ASCII capital, changes nothing else, and doing it twice is doing it once |
| Text.ContainsIgnoreCaseOfContains | anime_sources/src/main/java/com/programmersbox/anime_sources/anime/Crunchyroll.kt:241 | a name that contains the search text also contains it ignoring case |
| Text.NoSmallLeft | anime_sources/src/main/java/com/programmersbox/anime_sources/anime/Crunchyroll.kt:246 | after `replace("small", "full")` no "small" is left in the image URL |
| Text.BeforeFirstDot | mangaworld/src/main/java/com/programmersbox/mangaworld/reader/ReadViewModel.kt:67 | `split(".").first()` is the prefix before the first '.', or the whole name when there is none |
| Text.ParseInt | mangaworld/src/main/java/com/programmersbox/mangaworld/reader/ReadViewModel.kt:67 | `toInt` gives a value exactly when the text is an optional '+' or '-' and one or more digits whose signed value fits in 32 bits, and the value is that signed value |
| Text.ParseDecimal | mangaworld/src/main/java/com/programmersbox/mangaworld/reader/ReadViewModel.kt:67 | `toInt` reads back every non-negative `Int` written in decimal |
| UpdateChecker.MaxIndex | UIViews/src/main/java/com/programmersbox/uiviews/UpdateChecker.kt:62 | `maxByOrNull(numChapters)` picks an entry with the largest count, the first of several |
| UpdateChecker.MergeAt | UIViews/src/main/java/com/programmersbox/uiviews/UpdateChecker.kt:59-62 | the i-th merged favourite belongs to the i-th URL group |
| UpdateChecker.MergeUrls | UIViews/src/main/java/com/programmersbox/uiviews/UpdateChecker.kt:59-62 | the merged favourites have pairwise distinct URLs, exactly the URLs of the local and Firebase lists |
| UpdateChecker.MergeKeepsMax | UIViews/src/main/java/com/programmersbox/uiviews/UpdateChecker.kt:59-62 | each merged favourite is a stored copy, and no copy with its URL has more chapters |
| UpdateChecker.RecentItemsFrom | UIViews/src/main/java/com/programmersbox/uiviews/UpdateChecker.kt:69-78 | a recent item is checked exactly when a polled source answered with it |
| UpdateChecker.RecentItemsAppend | UIViews/src/main/java/com/programmersbox/uiviews/UpdateChecker.kt:69-78 | the recent items come source by source, in source order |
| UpdateChecker.FailingSourceIgnored | UIViews/src/main/java/com/programmersbox/uiviews/UpdateChecker.kt:71-77 | a source whose `getRecent` throws contributes nothing and stops nothing |
| UpdateChecker.Intersect | UIViews/src/main/java/com/programmersbox/uiviews/UpdateChecker.kt:68-79 | a favourite is kept exactly when some recent item has its URL |
| UpdateChecker.DistinctAt | UIViews/src/main/java/com/programmersbox/uiviews/UpdateChecker.kt:80 | the i-th distinct favourite belongs to the i-th URL group |
| UpdateChecker.DistinctByUrlSpec | UIViews/src/main/java/com/programmersbox/uiviews/UpdateChecker.kt:80 | `distinctBy(url)` leaves pairwise distinct URLs and drops no URL; each kept entry is the first in the list with its URL, and the kept entries are in list order |
| UpdateChecker.DistinctByUrlUnique | UIViews/src/main/java/com/programmersbox/uiviews/UpdateChecker.kt:80 | a list whose URLs are already distinct is left unchanged |
| UpdateChecker.CheckListSpec | UIViews/src/main/java/com/programmersbox/uiviews/UpdateChecker.kt:59-80 | the list to check has one entry per merged favourite found in a recent list, and no other |
| UpdateChecker.DiffReportsExactlyNewer | UIViews/src/main/java/com/programmersbox/uiviews/UpdateChecker.kt:91-103 | a favourite is reported, with its fetched info, exactly when its fetched count exceeds the stored one; a failed fetch reports nothing |
| UpdateChecker.DiffEmpty | UIViews/src/main/java/com/programmersbox/uiviews/UpdateChecker.kt:91-103 | when no favourite grew, nothing is reported |
| UpdateChecker.NoSourceNoReport | UIViews/src/main/java/com/programmersbox/uiviews/UpdateChecker.kt:95-97 | a favourite whose source is unknown counts as -1 chapters and is never newer |
| UpdateChecker.ReportedOnlyWhenNewer | UIViews/src/main/java/com/programmersbox/uiviews/UpdateChecker.kt:57-103 | a reported favourite is a stored one that a polled source lists, and its fetched count exceeds every stored copy's |
| UpdateChecker.Updated | UIViews/src/main/java/com/programmersbox/uiviews/UpdateChecker.kt:133-140 | one written favourite per report |
| UpdateChecker.UpdateManga | UIViews/src/main/java/com/programmersbox/uiviews/UpdateChecker.kt:133-140 | each reported favourite is written with the fetched chapter count (its own when there is no info), URL, title and source unchanged |
| UpdateChecker.WrittenCountsGrow | UIViews/src/main/java/com/programmersbox/uiviews/UpdateChecker.kt:136 | every written count is larger than the stored count it replaces |
| UpdateChecker.RecheckReportsNothing | UIViews/src/main/java/com/programmersbox/uiviews/UpdateChecker.kt:133-140 | checking the written favourites again against the same sources reports nothing |
| UpdateChecker.DiffPosting | UIViews/src/main/java/com/programmersbox/uiviews/UpdateChecker.kt:91-102 | the progress notification (id 13) is posted once per checked favourite, in list order, showing its index and title and indeterminate only at index 0; the reports are exactly `Diff` of the list; afterwards the progress shows the last favourite |
| UpdateChecker.CheckAndNotify | UIViews/src/main/java/com/programmersbox/uiviews/UpdateChecker.kt:82-115 | a whole check posts the diff's progress, then the report progress and the update notifications, then the summary only when some favourite grew, and writes back exactly the grown favourites |
| UpdateChecker.MapDbModelIds | UIViews/src/main/java/com/programmersbox/uiviews/UpdateChecker.kt:142-199 | the update notifications' ids are exactly the hash codes of the written favourites |
| UpdateChecker.MapDbModelPosting | UIViews/src/main/java/com/programmersbox/uiviews/UpdateChecker.kt:142-199 | one progress notification (id 13) is posted per report, in order, and the update notifications built are one per report, under the written favourite's hash, with its title, source and first chapter name ("" when none) |
| UpdateChecker.FinishCheck | UIViews/src/main/java/com/programmersbox/uiviews/UpdateChecker.kt:111-115 | the counts are written back, then the progress and update notifications are posted in report order, then a summary whose count takes id 13 as showing |
| UpdateChecker.FinishedSummaryCountsUpdates | UIViews/src/main/java/com/programmersbox/uiviews/UpdateChecker.kt:111-115 | with distinct hash codes other than 13 and 42 and no old summary, the summary at the end of a check counts exactly the update notifications then showing |
| UpdateChecker.NotificationCenter.constructor | UIViews/src/main/java/com/programmersbox/uiviews/UpdateChecker.kt:202 | the manager starts with the notifications already showing |
| UpdateChecker.NotificationCenter.Notify | UIViews/src/main/java/com/programmersbox/uiviews/UpdateChecker.kt:204 | `notify` replaces the notification under its id and posts it |
| UpdateChecker.SendRunningNotification | UIViews/src/main/java/com/programmersbox/uiviews/UpdateChecker.kt:230-244 | the progress notification goes under id 13 and is indeterminate exactly when progress is 0 |
| UpdateChecker.NotifyAll | UIViews/src/main/java/com/programmersbox/uiviews/UpdateChecker.kt:204 | every update is posted in order, later ones replacing earlier ones with the same id |
| UpdateChecker.OnEnd | UIViews/src/main/java/com/programmersbox/uiviews/UpdateChecker.kt:201-217 | after the updates, the summary (id 42) is posted only when there was one, with the count `size + (showing others - 1)` |
| UpdateChecker.IdsCardinality | UIViews/src/main/java/com/programmersbox/uiviews/UpdateChecker.kt:203 | with distinct ids there are as many ids as updates |
| UpdateChecker.SummaryCountsShownUpdates | UIViews/src/main/java/com/programmersbox/uiviews/UpdateChecker.kt:203-209 | with the progress notification showing and no old summary, the summary counts exactly the update notifications shown afterwards |
| UpdateChecker.SummaryCountsStaleSummary | UIViews/src/main/java/com/programmersbox/uiviews/UpdateChecker.kt:203-209 | when an old summary is still showing, the summary counts one more than the updates shown |
| Crunchyroll.CookieJar.constructor | anime_sources/src/main/java/com/programmersbox/anime_sources/anime/Crunchyroll.kt:47 | a jar holds the cookies it is made with |
| Crunchyroll.MergedCookiesSpec | anime_sources/src/main/java/com/programmersbox/anime_sources/anime/Crunchyroll.kt:38-44 | null or empty extra cookies leave the jar; otherwise the extra cookies win and the jar's others stay |
| Crunchyroll.MergeCookies | anime_sources/src/main/java/com/programmersbox/anime_sources/anime/Crunchyroll.kt:38-44 | `mergeCookies` returns the session jar itself, updated in place |
| Crunchyroll.SetCookies | anime_sources/src/main/java/com/programmersbox/anime_sources/anime/Crunchyroll.kt:79-82 | the parsed cookies are exactly those of headers named "set-cookie" in any case |
| Crunchyroll.HttpSession.constructor | anime_sources/src/main/java/com/programmersbox/anime_sources/anime/Crunchyroll.kt:47 | a session starts with an empty jar |
| Crunchyroll.HttpSession.Request | anime_sources/src/main/java/com/programmersbox/anime_sources/anime/Crunchyroll.kt:49-86 | `get` (and `post`, lines 88-125) sends the merged cookies, then adds the response's cookies and its Set-Cookie cookies to the jar |
| Crunchyroll.RequestCookiesPersist | anime_sources/src/main/java/com/programmersbox/anime_sources/anime/Crunchyroll.kt:76-84 | no cookie is lost across a request: the jar's, the caller's and the response's cookies are all kept |
| Crunchyroll.DigitRun | anime_sources/src/main/java/com/programmersbox/anime_sources/anime/Crunchyroll.kt:176 | `\d+` takes the longest run of ASCII digits |
| Crunchyroll.EpisodeNumber | anime_sources/src/main/java/com/programmersbox/anime_sources/anime/Crunchyroll.kt:270 | an episode number found is a non-empty run of digits |
| Crunchyroll.EpisodeNumberLeftmost | anime_sources/src/main/java/com/programmersbox/anime_sources/anime/Crunchyroll.kt:270 | a number found is the whole digit run after the leftmost "Episode " that a digit follows |
| Crunchyroll.EpisodeNumberNone | anime_sources/src/main/java/com/programmersbox/anime_sources/anime/Crunchyroll.kt:270 | no number is found exactly when "Episode " followed by a digit occurs nowhere |
| Crunchyroll.EpisodeNumberOfLabel | anime_sources/src/main/java/com/programmersbox/anime_sources/anime/Crunchyroll.kt:176 | the number of "Episode n" is n |
| Crunchyroll.AddSeasonEpisodes | anime_sources/src/main/java/com/programmersbox/anime_sources/anime/Crunchyroll.kt:268-302 | a season's episodes go to sub, to dub with " (Dub)", or nowhere, by the season name's track |
| Crunchyroll.ClassifyEpisodes | anime_sources/src/main/java/com/programmersbox/anime_sources/anime/Crunchyroll.kt:261-303 | the chapters are the sub episodes, season by season, then the dub ones |
| Crunchyroll.DroppedSeasonIgnored | anime_sources/src/main/java/com/programmersbox/anime_sources/anime/Crunchyroll.kt:281-282 | a season whose name contains "(HD)" adds no chapter |
| Crunchyroll.TrackChaptersFrom | anime_sources/src/main/java/com/programmersbox/anime_sources/anime/Crunchyroll.kt:283-291 | every chapter is made from an episode of a season of its track, and a dub chapter's name ends in " (Dub)" |
| Crunchyroll.ChaptersCoverEpisodes | anime_sources/src/main/java/com/programmersbox/anime_sources/anime/Crunchyroll.kt:264-303 | sub chapters plus dub chapters plus the dropped seasons' episodes are all the episodes |
| Crunchyroll.Stream.constructor | anime_sources/src/main/java/com/programmersbox/anime_sources/anime/Crunchyroll.kt:339-346 | a stream starts untitled |
| Crunchyroll.KeptStreams | anime_sources/src/main/java/com/programmersbox/anime_sources/anime/Crunchyroll.kt:373-390 | a stream is kept exactly when it has an adaptive format, Japanese audio, no or English hard subtitles and a playlist URL |
| Crunchyroll.KeptStreamsAppend | anime_sources/src/main/java/com/programmersbox/anime_sources/anime/Crunchyroll.kt:373-390 | the kept streams keep the order of the stream list, each once per occurrence |
| Crunchyroll.SelectStreams | anime_sources/src/main/java/com/programmersbox/anime_sources/anime/Crunchyroll.kt:371-390 | the kept streams are collected in order and titled; the others are left as they were |
| Crunchyroll.StreamTitleMeaning | anime_sources/src/main/java/com/programmersbox/anime_sources/anime/Crunchyroll.kt:386 | a kept stream is "Hardsub" exactly with English hard subtitles and "Raw" exactly without any |
| Crunchyroll.Description | anime_sources/src/main/java/com/programmersbox/anime_sources/anime/Crunchyroll.kt:305-315 | the trimmed `.more` text when not blank, else the trimmed `span` text, else ""; never padded |
| Crunchyroll.SearchResults | anime_sources/src/main/java/com/programmersbox/anime_sources/anime/Crunchyroll.kt:234-254 | the results are exactly the matching candidates, with full-size images; unreadable JSON gives none |
| Crunchyroll.SearchResultsFlatMap | anime_sources/src/main/java/com/programmersbox/anime_sources/anime/Crunchyroll.kt:241-250 | the results are, candidate by candidate in order, the full-size item of each matching candidate, as `filter` then `fastMap` produce |
| Crunchyroll.SearchResultsAppend | anime_sources/src/main/java/com/programmersbox/anime_sources/anime/Crunchyroll.kt:241-250 | results keep the candidates' order and multiplicity: searching `a + b` gives the results of `a` followed by those of `b` |
| Crunchyroll.SearchResultsSingle | anime_sources/src/main/java/com/programmersbox/anime_sources/anime/Crunchyroll.kt:241-250 | one candidate yields its full-size result exactly when it matches, and nothing otherwise |
| Reader.PageKeyOfPageFile | mangaworld/src/main/java/com/programmersbox/mangaworld/reader/ReadViewModel.kt:67 | a file named "n.ext" has page number n |
| Reader.PageOrderSorted | mangaworld/src/main/java/com/programmersbox/mangaworld/reader/ReadViewModel.kt:64-73 | the pages of a folder of numbered files are all its files, by increasing page number, equal numbers in listing order |
| Reader.PageOrderSingle | mangaworld/src/main/java/com/programmersbox/mangaworld/reader/ReadViewModel.kt:67 | a folder of at most one file shows it whatever its name |
| Reader.PageOrderEmpty | mangaworld/src/main/java/com/programmersbox/mangaworld/reader/ReadViewModel.kt:64-72 | a folder that cannot be listed, or one of two or more files of which one is not numbered, shows no page |
| Reader.Links | mangaworld/src/main/java/com/programmersbox/mangaworld/reader/ReadViewModel.kt:46 | the pages are exactly the links that are present |
| Reader.LinksAppend | mangaworld/src/main/java/com/programmersbox/mangaworld/reader/ReadViewModel.kt:46 | the pages keep the order of the storages |
| Reader.ChapterFlowLoads | mangaworld/src/main/java/com/programmersbox/mangaworld/reader/ReadViewModel.kt:43-47 | a chapter's info shows the links of all its storages in order, and puts all their headers in order exactly when headers are kept |
| Reader.StartFlowLoads | mangaworld/src/main/java/com/programmersbox/mangaworld/reader/ReadViewModel.kt:53-76 | a downloaded chapter with a folder shows the folder's pages in page order with headers untouched; otherwise a passed chapter shows its storages' links and puts their headers; with neither nothing is loaded |
| Reader.PutMapsSpec | mangaworld/src/main/java/com/programmersbox/mangaworld/reader/ReadViewModel.kt:45 | after `putAll`, a header is present when it was or some map has it, with the last map's value |
| Reader.ChapterIndex | mangaworld/src/main/java/com/programmersbox/mangaworld/reader/ReadViewModel.kt:134 | the index of the first chapter with the URL, or -1 when none has it |
| Reader.ReadViewModel.constructor | mangaworld/src/main/java/com/programmersbox/mangaworld/reader/ReadViewModel.kt:132-136 | `init` loads the chapter list, finds the current chapter and shows the starting pages: the folder's in page order, or the passed chapter's links with its headers put |
| Reader.ReadViewModel.OnStart | mangaworld/src/main/java/com/programmersbox/mangaworld/reader/ReadViewModel.kt:162-165 | loading starts by raising the flag and clearing the pages |
| Reader.ReadViewModel.OnEach | mangaworld/src/main/java/com/programmersbox/mangaworld/reader/ReadViewModel.kt:166 | each emission puts its headers, then appends its pages |
| Reader.ReadViewModel.OnCompletion | mangaworld/src/main/java/com/programmersbox/mangaworld/reader/ReadViewModel.kt:167 | completion lowers the flag |
| Reader.ReadViewModel.LoadPages | mangaworld/src/main/java/com/programmersbox/mangaworld/reader/ReadViewModel.kt:160-169 | without a flow nothing changes; otherwise the pages are those of the flow alone and the flag is down |
| Reader.ReadViewModel.AddChapterToWatched | mangaworld/src/main/java/com/programmersbox/mangaworld/reader/ReadViewModel.kt:141-158 | the index is always taken; a chapter at it is recorded as watched and its pages loaded, headers untouched |
| Reader.ReadViewModel.Refresh | mangaworld/src/main/java/com/programmersbox/mangaworld/reader/ReadViewModel.kt:171-181 | the headers are cleared and the current chapter, if any, reloaded with its headers |
| Reader.RefreshHeadersExact | mangaworld/src/main/java/com/programmersbox/mangaworld/reader/ReadViewModel.kt:172-177 | after a refresh a header is present exactly when a storage of the reloaded chapter carries it |
| Reader.NoHeadersKept | mangaworld/src/main/java/com/programmersbox/mangaworld/reader/ReadViewModel.kt:153-156 | loading a chapter from the watched list leaves the headers as they were |
| DownloadViewer.GroupedShowsEveryPage | mangaworld/src/main/java/com/programmersbox/mangaworld/DownloadViewerFragment.kt:95-104 | the folders' chapters together show every downloaded page exactly once |
| DownloadViewer.GroupsNonEmpty | mangaworld/src/main/java/com/programmersbox/mangaworld/DownloadViewerFragment.kt:195-209 | no folder and no chapter is empty, so the random pick for a name always finds a page |
| DownloadViewer.ChapterPages | mangaworld/src/main/java/com/programmersbox/mangaworld/DownloadViewerFragment.kt:95-104 | a chapter group holds exactly the pages of its folder and chapter folder, so the page count is theirs |
| DownloadViewer.ChapterCount | mangaworld/src/main/java/com/programmersbox/mangaworld/DownloadViewerFragment.kt:196 | a folder's chapter count is the number of distinct chapter folders among its pages |
| DownloadViewer.PageInOneChapter | mangaworld/src/main/java/com/programmersbox/mangaworld/DownloadViewerFragment.kt:96-102 | every page is in exactly one chapter group, the one of its folder and chapter folder |
| DownloadViewer.EmptyStateIffNoPages | mangaworld/src/main/java/com/programmersbox/mangaworld/DownloadViewerFragment.kt:118 | the empty state shows exactly when nothing was downloaded |
| DownloadViewer.ConfirmStateChange | mangaworld/src/main/java/com/programmersbox/mangaworld/DownloadViewerFragment.kt:259-266 | a swipe is never accepted, and only a swipe to the start opens the delete dialog |

## Left out

- Network, HTML and JSON I/O are left out: `khttp`, Jsoup selectors, `fromJson`, the geo-bypass requests and `autoLoadSession`. The model starts from the parsed values. Seasons, episodes, description elements, search candidates and streams are datatypes.
- These collaborators become parameters: `fixUrl`, the string similarity, the M3U8 extension test, cookie-header parsing, `hashCode`, a file's URI, a chapter's info and a source's details. Their code is not part of this model.
- Threads and schedulers are left out: RxJava `Single`s, coroutines and flow dispatchers.
- The update check's 30-second watchdog job (UpdateChecker.kt lines 84-90, 94, 104-109) is left out. When one fetch takes longer than 30 seconds, the job throws outside the `try`. By default that ends the process, so that run writes nothing back and posts no notification. The model covers only runs where every fetch returns in time.
- Database and Firebase writes are represented only by what they would store. `UpdateManga` returns the written favourites; the reader appends the watched records. The notification record that `mapDbModel` inserts (UpdateChecker.kt lines 145-155) is not modelled.
- UpdateManga: the source changes each `DbModel`'s `numChapters` in place. The model returns updated copies, so aliasing between the reported and the stored objects is not captured.
- FinishCheck and CheckAndNotify treat a report without fetched details like any other. Such a report comes from an unknown source with a stored count below -1. The update notification's content intent reads `pair.first!!.source` (UpdateChecker.kt line 195). If the notification builder runs that block while building, the `!!` throws inside `mapDbModel`. The counts have then already been written, and progress has been posted up to that report. The error ends at `onErrorReturn` (lines 120-124), so no update or summary notification is posted. The builder's library is not part of this model, so the model does not capture that failure.
- `requireNoNulls` on the Firebase list (UpdateChecker.kt line 61) is not modelled. The remote list is taken as free of nulls.
- The notification text, bitmap, intents and channels are left out (UpdateChecker.kt lines 156-198), and so is `sendFinishedNotification`. The model keeps only the id, title, source, chapter name, count and progress of each notification.
- The search's `onErrorResumeNext` fallback to the generic search is left out. So is the conversion of kept streams into `Storage`s through the M3U8 generator (Crunchyroll.kt lines 393 onwards).
- Case folding and digits are ASCII only: `toLowerCase`, `contains(ignoreCase = true)` and `toInt`. Unicode letters and digits are not modelled.
- The battery, ads and `showInfo` state of the reader is left out. So are the `chapter()` callback after a chapter is recorded, and a chapter-info flow that fails. The model lets every flow complete normally.
- The downloaded-chapters screen shows the `folderName` and `chapterName` of a random page. The model proves that a page is always there; which page is chosen is not modelled. Deleting a chapter's files and navigation are left out.
- Chapter counts and notification counts are unbounded integers. No 32-bit overflow is modelled, since they stay far below `Int.MAX_VALUE`.
