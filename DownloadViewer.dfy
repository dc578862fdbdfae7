/**
 * The downloaded-chapters screen: the downloaded pages grouped by manga
 * folder and then by chapter folder, the counts shown for each group, the
 * empty state, and the swipe that asks to delete a chapter.
 */
module DownloadViewer {
  import opened Collections

  /** One downloaded page as the chapter scanner reports it. */
  datatype DownloadedPage = DownloadedPage(folder: string, chapterFolder: string, folderName: string,
                                           chapterName: string, assetUri: string, id: string)

  function Folder(p: DownloadedPage): string { p.folder }

  function ChapterFolder(p: DownloadedPage): string { p.chapterFolder }

  /** Where a page sits: its manga folder and its chapter folder. */
  function Place(p: DownloadedPage): (string, string) { (p.folder, p.chapterFolder) }

  /** One chapter: its chapter folder and its pages. */
  type ChapterGroup = Group<string, DownloadedPage>

  /** The inner `groupBy` applied to every manga folder's pages. */
  function Nest(outer: seq<Group<string, DownloadedPage>>): (r: seq<Group<string, ChapterGroup>>)
    ensures |r| == |outer|
    ensures forall i :: 0 <= i < |outer| ==> r[i] == Group(outer[i].key, GroupBy(outer[i].items, ChapterFolder))
  {
    seq(|outer|, i requires 0 <= i < |outer| => Group(outer[i].key, GroupBy(outer[i].items, ChapterFolder)))
  }

  /** Lines 95-104: the pages grouped by folder, then each folder's pages by chapter folder. */
  function Grouped(pages: seq<DownloadedPage>): seq<Group<string, ChapterGroup>>
  {
    Nest(GroupBy(pages, Folder))
  }

  /** The pages under one manga folder, chapter after chapter. */
  function FolderPages(f: Group<string, ChapterGroup>): seq<DownloadedPage> { Concat(f.items) }

  /** Grouping each folder's pages by chapter neither loses nor repeats a page. */
  lemma {:induction false} NestKeepsPages(outer: seq<Group<string, DownloadedPage>>)
    ensures multiset(FlatMap(Nest(outer), FolderPages)) == multiset(Concat(outer))
  {
    if outer != [] {
      var init, last := outer[..|outer| - 1], outer[|outer| - 1];
      assert outer == init + [last];
      NestKeepsPages(init);
      var n := Nest(outer);
      assert n == Nest(init) + [n[|outer| - 1]];
      FlatMapSnoc(Nest(init), n[|outer| - 1], FolderPages);
      GroupByIsPermutation(last.items, ChapterFolder);
      ConcatAppend(init, last);
    }
  }

  /** The grouped list shows every downloaded page exactly once. */
  lemma GroupedShowsEveryPage(pages: seq<DownloadedPage>)
    ensures multiset(FlatMap(Grouped(pages), FolderPages)) == multiset(pages)
  {
    NestKeepsPages(GroupBy(pages, Folder));
    GroupByIsPermutation(pages, Folder);
  }

  /**
   * Every group, outer and inner, has at least one page, so picking a random
   * page of a folder or of a chapter for its name always finds one.
   */
  lemma GroupsNonEmpty(pages: seq<DownloadedPage>)
    ensures forall i :: 0 <= i < |Grouped(pages)| ==> Grouped(pages)[i].items != []
    ensures forall i, j :: 0 <= i < |Grouped(pages)| && 0 <= j < |Grouped(pages)[i].items| ==>
              Grouped(pages)[i].items[j].items != []
  {
  }

  /** The pages of one chapter: those with that folder and that chapter folder, in scan order. */
  lemma {:induction false} MembersOfMembers(xs: seq<DownloadedPage>, f: string, c: string)
    ensures Members(Members(xs, Folder, f), ChapterFolder, c) == Members(xs, Place, (f, c))
  {
    if xs != [] {
      var init, last := xs[..|xs| - 1], xs[|xs| - 1];
      assert xs == init + [last];
      MembersOfMembers(init, f, c);
      var a := Members(init, Folder, f);
      MembersSnoc(init, last, Folder, f);
      MembersSnoc(init, last, Place, (f, c));
      if last.folder == f {
        assert Members(xs, Folder, f) == a + [last];
        MembersSnoc(a, last, ChapterFolder, c);
      } else {
        assert Members(xs, Folder, f) == a;
        assert Members(xs, Place, (f, c)) == Members(init, Place, (f, c)) + [];
      }
    }
  }

  /**
   * Each chapter group holds exactly the pages with its folder and chapter
   * folder, in scan order: the page count shown for a chapter (line 317) is
   * the number of its downloaded pages.
   */
  lemma ChapterPages(pages: seq<DownloadedPage>, i: nat, j: nat)
    requires i < |Grouped(pages)| && j < |Grouped(pages)[i].items|
    ensures var g := Grouped(pages);
            g[i].items[j].items == Members(pages, Place, (g[i].key, g[i].items[j].key))
  {
    var outer := GroupBy(pages, Folder);
    var inner := GroupBy(outer[i].items, ChapterFolder);
    GroupByItems(pages, Folder);
    GroupByItems(outer[i].items, ChapterFolder);
    MembersOfMembers(pages, outer[i].key, inner[j].key);
  }

  /**
   * The chapter count shown for a folder (line 196) is the number of distinct
   * chapter folders among that folder's pages.
   */
  lemma ChapterCount(pages: seq<DownloadedPage>, i: nat)
    requires i < |Grouped(pages)|
    ensures |Grouped(pages)[i].items| ==
            |set p | p in pages && p.folder == Grouped(pages)[i].key :: p.chapterFolder|
  {
    var outer := GroupBy(pages, Folder);
    GroupByItems(pages, Folder);
    FolderChapterCount(pages, outer[i].key);
  }

  lemma FolderChapterCount(pages: seq<DownloadedPage>, f: string)
    ensures |GroupBy(Members(pages, Folder, f), ChapterFolder)| ==
            |set p | p in pages && p.folder == f :: p.chapterFolder|
  {
    var xs := Members(pages, Folder, f);
    GroupCount(xs, ChapterFolder);
    var a := KeySet(xs, ChapterFolder);
    var b := set p | p in pages && p.folder == f :: p.chapterFolder;
    forall cf | cf in a ensures cf in b {
      var p :| p in xs && ChapterFolder(p) == cf;
    }
    forall cf | cf in b ensures cf in a {
      var p :| p in pages && p.folder == f && p.chapterFolder == cf;
      assert p in xs;
    }
    assert a == b;
  }

  /**
   * Every downloaded page appears in exactly one chapter group, the one of
   * its folder and chapter folder.
   */
  lemma PageInOneChapter(pages: seq<DownloadedPage>, p: DownloadedPage) returns (i: nat, j: nat)
    requires p in pages
    ensures var g := Grouped(pages);
            && i < |g| && j < |g[i].items|
            && g[i].key == p.folder && g[i].items[j].key == p.chapterFolder
            && p in g[i].items[j].items
            && forall i2, j2 :: 0 <= i2 < |g| && 0 <= j2 < |g[i2].items| && p in g[i2].items[j2].items ==>
                 i2 == i && j2 == j
  {
    var outer := GroupBy(pages, Folder);
    var g := Grouped(pages);
    i := GroupOf(pages, Folder, p);
    j := GroupOf(outer[i].items, ChapterFolder, p);
    forall i2, j2 | 0 <= i2 < |g| && 0 <= j2 < |g[i2].items| && p in g[i2].items[j2].items
      ensures i2 == i && j2 == j
    {
      GroupByItems(outer[i2].items, ChapterFolder);
      assert p in outer[i2].items;
    }
  }

  /** Lines 118-119: the empty state shows exactly when nothing was downloaded. */
  lemma EmptyStateIffNoPages(pages: seq<DownloadedPage>)
    ensures Grouped(pages) == [] <==> pages == []
  {
    if pages != [] {
      var i := GroupOf(pages, Folder, pages[0]);
    }
  }

  /** What a swipe may end in. */
  datatype DismissValue = Default | DismissedToEnd | DismissedToStart

  /**
   * Lines 259-266, `confirmStateChange`: the swipe is never let through (the
   * row stays), and a swipe towards the start asks for the delete confirmation.
   * Returns whether the change is accepted and the new `showPopup`.
   */
  function ConfirmStateChange(value: DismissValue, showPopup: bool): (r: (bool, bool))
    ensures !r.0
    ensures r.1 <==> showPopup || value == DismissedToStart
    ensures value != DismissedToStart ==> r.1 == showPopup
  {
    (false, if value == DismissedToStart then true else showPopup)
  }
}
