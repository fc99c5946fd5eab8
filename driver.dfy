/**
 * The top level of the synchronizer: the watermark read from the book
 * database, the page of one book created or updated, the notes of one book
 * reconciled, merged and written, and the two passes over the shelf and the
 * notebook list.
 *
 * What the reading service and the workspace answer to the read requests of
 * one book is given as a `BookData`; the clock is the parameter `now`.
 */
module SyncDriver {
  import opened Wrappers
  import opened Domain
  import opened BookPage
  import opened RemoteStore
  import opened Reconciler
  import opened NoteOrder
  import opened NoteMerger
  import opened BlockBatcher

  /** A book as the shelf and the notebook list describe it. */
  datatype Book = Book(bookId: string, cover: string, author: string)

  /**
   * An entry of the notebook list: its own `bookId`, which the shelf pass
   * compares against, its `sort` value, and the book, whose `bookId` the
   * notebook pass uses.
   */
  datatype NotedBook = NotedBook(bookId: string, sort: int, book: Book)

  /** The answers to the read requests made for one book. */
  datatype BookData = BookData(
    readInfo: Option<ReadInfo>,
    chapters: Option<map<int, Content>>,
    bookmarkRecords: seq<IndexRecord<string>>,
    bookmarks: seq<Content>,
    reviewRecords: seq<IndexRecord<string>>,
    reviews: seq<Content>,
    chapterRecords: seq<IndexRecord<int>>,
    children: seq<(Block, Id)>)

  /** The start offsets the merge parses are decimal numbers. */
  predicate Parses(data: BookData) {
    data.chapters.Some? ==> AllParse(data.bookmarks) && AllParse(data.reviews)
  }

  // ---------------------------------------------------------------------------
  // The watermark

  /** `get_sort`: the largest `Sort` in the book database, 0 when it has no page. */
  method GetSort(store: Store) returns (latest: int)
    ensures store.pages == map[] ==> latest == 0
    ensures store.pages != map[] ==> latest in Sorts(store.pages) && forall s :: s in Sorts(store.pages) ==> s <= latest
  {
    var results := store.QueryTopSort();
    if |results| == 1 {
      latest := results[0];
    } else {
      latest := 0;
    }
  }

  /** The `Sort` of every page, by BookId. */
  function SortOf(pages: map<string, Page>): (m: map<string, int>)
    ensures m.Keys == pages.Keys && m.Values == Sorts(pages)
    ensures forall b :: b in pages ==> m[b] == pages[b].sort
  {
    var m := map b | b in pages :: pages[b].sort;
    assert m.Values == Sorts(pages) by {
      forall s | s in Sorts(pages) ensures s in m.Values {
        var b :| b in pages && pages[b].sort == s;
        assert m[b] == s;
      }
    }
    m
  }

  /** The `Sort` values after writing `writes` in order. */
  function ApplyWrites(m: map<string, int>, writes: seq<(string, int)>): map<string, int> {
    if writes == [] then m
    else
      var w := writes[|writes| - 1];
      ApplyWrites(m, writes[..|writes| - 1])[w.0 := w.1]
  }

  /** Writing `a` then `b` is writing `a + b`. */
  lemma {:induction false} ApplyWritesAppend(m: map<string, int>, a: seq<(string, int)>, b: seq<(string, int)>)
    ensures ApplyWrites(m, a + b) == ApplyWrites(ApplyWrites(m, a), b)
  {
    if b == [] {
      assert a + b == a;
    } else {
      var n := |b| - 1;
      ApplyWritesAppend(m, a, b[..n]);
      assert (a + b)[..|a + b| - 1] == a + b[..n];
    }
  }

  /** The book written last keeps the `Sort` it was written with. */
  lemma LastWriteWins(m: map<string, int>, writes: seq<(string, int)>)
    requires writes != []
    ensures var w := writes[|writes| - 1];
      w.0 in ApplyWrites(m, writes) && ApplyWrites(m, writes)[w.0] == w.1
  {
  }

  // ---------------------------------------------------------------------------
  // One book page

  /** The properties `insert_book_to_notion` writes for a book. */
  function PropsFor(book: Book, sort: int, repository: string, branch: string, info: Option<ReadInfo>, now: int): BookProps {
    BookPropsOf(CoverFor(book.author, book.cover, repository, branch), sort, info, now)
  }

  lemma OnePageWrite(log: seq<Call>, c: Call)
    requires WritesPage(c)
    ensures PageWrites(log + [c]) == PageWrites(log) + [(c.bookId, c.props.sort)]
  {
    assert (log + [c])[..|log|] == log;
  }

  /**
   * `consolidate2Page` with `check` and `insert_book_to_notion`: the page
   * whose BookId is the book's is updated, or a page is created when there is
   * none; either way it ends up with the given `Sort`.
   */
  method Consolidate(store: Store, bookId: string, book: Book, sort: int, repository: string, branch: string,
                     info: Option<ReadInfo>, now: int) returns (page: Id)
    modifies store
    ensures store.pages == old(store.pages)[bookId := Page(page, sort)]
    ensures bookId in old(store.pages) ==>
      page == old(store.pages)[bookId].id
      && store.log == old(store.log) + [UpdatePage(bookId, page, PropsFor(book, sort, repository, branch, info, now))]
    ensures bookId !in old(store.pages) ==>
      store.log == old(store.log) + [CreatePage(bookId, page, PropsFor(book, sort, repository, branch, info, now))]
    ensures PageWrites(store.log) == PageWrites(old(store.log)) + [(bookId, sort)]
  {
    var cover := CoverFor(book.author, book.cover, repository, branch);
    var existing := store.FindBook(bookId);
    var props := BookPropsOf(cover, sort, info, now);
    ghost var log0 := store.log;
    if existing.None? {
      page := store.CreateBookPage(bookId, props);
      OnePageWrite(log0, CreatePage(bookId, page, props));
    } else {
      page := existing.value;
      store.UpdateBookPage(bookId, page, props);
      OnePageWrite(log0, UpdatePage(bookId, page, props));
    }
  }

  // ---------------------------------------------------------------------------
  // The notes of one book

  /** The fetched items after matching against the index: only `blockId` can change. */
  ghost function MatchedList(fetched: seq<Content>, list: NoteList, index: map<string, Id>): (r: seq<Content>)
    ensures |r| == |fetched|
    ensures forall i :: 0 <= i < |r| ==> r[i] == fetched[i].(blockId := r[i].blockId)
  {
    seq(|fetched|, i requires 0 <= i < |fetched| => Matched(fetched, list, index, i))
  }

  /** The highlights, then the reviews, of a book after matching: the list handed to the merge. */
  ghost function Incoming(data: BookData): (r: seq<Content>)
    ensures |r| == |data.bookmarks| + |data.reviews|
    ensures forall i :: 0 <= i < |data.bookmarks| ==>
      r[i] == Matched(data.bookmarks, Bookmarks, BlockIndex(data.bookmarkRecords).entries, i)
    ensures forall i :: 0 <= i < |data.reviews| ==>
      r[|data.bookmarks| + i] == Matched(data.reviews, Reviews, BlockIndex(data.reviewRecords).entries, i)
    ensures Parses(data) && data.chapters.Some? ==> AllParse(r)
  {
    var b := MatchedList(data.bookmarks, Bookmarks, BlockIndex(data.bookmarkRecords).entries);
    var v := MatchedList(data.reviews, Reviews, BlockIndex(data.reviewRecords).entries);
    assert forall i :: 0 <= i < |b| ==> b[i].range == data.bookmarks[i].range;
    assert forall i :: 0 <= i < |v| ==> v[i].range == data.reviews[i].range;
    b + v
  }

  /** The note stream of a book: the merge with its chapters, or the list as is without a chapter table. */
  ghost function Merged(data: BookData): seq<Content>
    requires Parses(data)
  {
    if data.chapters.None? then Incoming(data)
    else Interleave(StableSort(Incoming(data)), data.chapters.value, BlockIndex(data.chapterRecords).entries)
  }

  /** The deletions of the highlight and review reconciliations of a book. */
  ghost function FetchDeletions(data: BookData): seq<Call> {
    DeleteCalls(Orphans(data.bookmarkRecords, data.bookmarks, Bookmarks), RecordIndex(data.bookmarkRecords))
    + DeleteCalls(Orphans(data.reviewRecords, data.reviews, Reviews), RecordIndex(data.reviewRecords))
  }

  /** The deletions of the chapter reconciliation of a book, which runs only with a chapter table. */
  ghost function ChapterDeletions(data: BookData): seq<Call> {
    if data.chapters.None? then []
    else DeleteCalls(ChapterOrphans(data.chapterRecords, Incoming(data), data.chapters.value), RecordIndex(data.chapterRecords))
  }

  /** The calls that write the note stream into the page. */
  ghost function NoteWrites(page: Id, children: seq<(Block, Id)>, start: Id, fs: seq<Flush>): seq<Call> {
    TocCalls(page, children, start) + FlushLog(page, fs) + InsertCalls(page, Written(fs))
  }

  /** No call of a flush log writes a book page. */
  lemma {:induction false} FlushLogWritesNoPage(page: Id, fs: seq<Flush>)
    requires forall i :: 0 <= i < |fs| ==> |fs[i].items| <= |fs[i].ids| && AbstractCalls(fs[i].quotes, fs[i].items, fs[i].ids)
    ensures forall c :: c in FlushLog(page, fs) ==> !WritesPage(c)
  {
    if fs != [] {
      var n := |fs| - 1;
      FlushLogWritesNoPage(page, fs[..n]);
      AbstractCallsCount(fs[n].quotes, fs[n].items, fs[n].ids);
    }
  }

  lemma DeleteCallsNoPage(blocks: seq<Id>, recordOf: map<Id, Id>)
    requires forall i :: 0 <= i < |blocks| ==> blocks[i] in recordOf
    ensures PageWrites(DeleteCalls(blocks, recordOf)) == []
  {
    NoPageWrites(DeleteCalls(blocks, recordOf));
  }

  /** Reconciling highlights and reviews touches no book page. */
  lemma FetchDeletionsNoPage(data: BookData)
    ensures PageWrites(FetchDeletions(data)) == []
  {
    var b1, b2 := Orphans(data.bookmarkRecords, data.bookmarks, Bookmarks), Orphans(data.reviewRecords, data.reviews, Reviews);
    var m1, m2 := RecordIndex(data.bookmarkRecords), RecordIndex(data.reviewRecords);
    DeleteCallsNoPage(b1, m1);
    DeleteCallsNoPage(b2, m2);
    PageWritesAppend(DeleteCalls(b1, m1), DeleteCalls(b2, m2));
  }

  /** Reconciling the chapter headings touches no book page. */
  lemma ChapterDeletionsNoPage(data: BookData)
    ensures PageWrites(ChapterDeletions(data)) == []
  {
    if data.chapters.Some? {
      DeleteCallsNoPage(ChapterOrphans(data.chapterRecords, Incoming(data), data.chapters.value), RecordIndex(data.chapterRecords));
    }
  }

  /** Writing the notes of a book touches no book page. */
  lemma NoteWritesNoPage(page: Id, children: seq<(Block, Id)>, start: Id, fs: seq<Flush>, plan: seq<Batch>)
    requires Realizes(fs, plan)
    ensures PageWrites(NoteWrites(page, children, start, fs)) == []
  {
    var toc, flushes, inserts := TocCalls(page, children, start), FlushLog(page, fs), InsertCalls(page, Written(fs));
    NoPageWrites(toc);
    forall i | 0 <= i < |fs| ensures |fs[i].items| <= |fs[i].ids| && AbstractCalls(fs[i].quotes, fs[i].items, fs[i].ids) {
      assert FlushFor(fs, plan, i);
    }
    FlushLogWritesNoPage(page, fs);
    NoPageWrites(flushes);
    InsertCallsByKind(page, Written(fs));
    NoPageWrites(inserts);
    PageWritesAppend(toc, flushes);
    PageWritesAppend(toc + flushes, inserts);
  }

  /**
   * The notebook pass for one book: reconcile highlights and reviews against
   * their index databases, merge them with the chapters, and write the result
   * into the page.
   */
  method SyncBook(store: Store, page: Id, data: BookData) returns (ghost start: Id, ghost fs: seq<Flush>)
    requires Parses(data)
    modifies store
    ensures Realizes(fs, Plan(Merged(data), start))
    ensures |data.children| > 0 && data.children[0].0 == TableOfContents ==> start == data.children[0].1
    ensures store.log == old(store.log) + (FetchDeletions(data) + ChapterDeletions(data) + NoteWrites(page, data.children, start, fs))
    ensures store.pages == old(store.pages)
    ensures PageWrites(store.log) == PageWrites(old(store.log))
  {
    ghost var log0 := store.log;
    var list := FetchNotes(store, data);
    ghost var log1 := store.log;
    var notes := SortNotes(store, data.chapters, data.chapterRecords, Some(list));
    assert notes == Merged(data);
    ghost var log2 := store.log;
    assert log2 == log1 + ChapterDeletions(data);
    start, fs := AppendBlocks(store, page, data.children, notes);
    ghost var tail := FetchDeletions(data) + ChapterDeletions(data) + NoteWrites(page, data.children, start, fs);
    Concat3(log2, TocCalls(page, data.children, start), FlushLog(page, fs), InsertCalls(page, Written(fs)));
    Concat3(log0, FetchDeletions(data), ChapterDeletions(data), NoteWrites(page, data.children, start, fs));
    FetchDeletionsNoPage(data);
    ChapterDeletionsNoPage(data);
    PageWritesAppend(FetchDeletions(data), ChapterDeletions(data));
    NoteWritesNoPage(page, data.children, start, fs, Plan(Merged(data), start));
    PageWritesAppend(FetchDeletions(data) + ChapterDeletions(data), NoteWrites(page, data.children, start, fs));
    PageWritesAppend(log0, tail);
  }

  lemma Concat2<T>(s: seq<T>, a: seq<T>, b: seq<T>)
    ensures s + a + b == s + (a + b)
  {
  }

  lemma Concat3<T>(s: seq<T>, a: seq<T>, b: seq<T>, c: seq<T>)
    ensures s + a + b + c == s + (a + b + c)
  {
  }

  /** The first two reconciliations of `sort_notes`' caller: highlights, then reviews. */
  method FetchNotes(store: Store, data: BookData) returns (list: seq<Content>)
    modifies store
    ensures list == Incoming(data)
    ensures store.log == old(store.log) + FetchDeletions(data)
    ensures store.pages == old(store.pages) && store.nextId == old(store.nextId)
  {
    var bookmarks := Reconcile(store, Bookmarks, data.bookmarkRecords, data.bookmarks);
    assert bookmarks == MatchedList(data.bookmarks, Bookmarks, BlockIndex(data.bookmarkRecords).entries);
    var reviews := Reconcile(store, Reviews, data.reviewRecords, data.reviews);
    assert reviews == MatchedList(data.reviews, Reviews, BlockIndex(data.reviewRecords).entries);
    list := bookmarks + reviews;
    Concat2(old(store.log), DeleteCalls(Orphans(data.bookmarkRecords, data.bookmarks, Bookmarks), RecordIndex(data.bookmarkRecords)),
      DeleteCalls(Orphans(data.reviewRecords, data.reviews, Reviews), RecordIndex(data.reviewRecords)));
  }

  // ---------------------------------------------------------------------------
  // The calls made for one book

  /** A call that creates or updates the page of `bookId` with the properties `props`. */
  predicate PageCall(c: Call, bookId: string, props: BookProps) {
    (c.CreatePage? || c.UpdatePage?) && c.bookId == bookId && c.props == props
  }

  /** The calls of a book in order, one book after another. */
  ghost function Flatten(calls: seq<seq<Call>>): seq<Call> {
    if calls == [] then []
    else Flatten(calls[..|calls| - 1]) + calls[|calls| - 1]
  }

  /** The calls of one more book extend the log. */
  lemma FlattenSnoc(log: seq<Call>, calls: seq<seq<Call>>, c: seq<Call>)
    ensures log + Flatten(calls) + c == log + Flatten(calls + [c])
  {
    assert (calls + [c])[..|calls|] == calls;
  }

  /** The calls the shelf pass makes for one book: none when it has notes, otherwise its page with `Sort` -1. */
  ghost predicate ShelfSynced(book: Book, ids: seq<string>, remote: string -> BookData,
                              repository: string, branch: string, now: int, calls: seq<Call>)
  {
    if book.bookId in ids then calls == []
    else |calls| == 1 && PageCall(calls[0], book.bookId, PropsFor(book, -1, repository, branch, remote(book.bookId).readInfo, now))
  }

  /** Where the notes of one book were written: the block after which they start, and the flushes. */
  datatype NoteWrite = NoteWrite(start: Id, flushes: seq<Flush>)

  /**
   * The calls the notebook pass makes for one entry: none at or below the
   * watermark; otherwise the page written with the entry's `sort`, then the
   * deletions of the three reconciliations, then the merged note stream
   * written after `w.start` in the batches of `Plan`.
   */
  ghost predicate NotedSynced(entry: NotedBook, latest: int, remote: string -> BookData,
                              repository: string, branch: string, now: int, calls: seq<Call>, w: NoteWrite)
  {
    if entry.sort <= latest then calls == []
    else
      var data := remote(entry.book.bookId);
      |calls| >= 1
      && PageCall(calls[0], entry.book.bookId, PropsFor(entry.book, entry.sort, repository, branch, data.readInfo, now))
      && Parses(data)
      && Realizes(w.flushes, Plan(Merged(data), w.start))
      && (|data.children| > 0 && data.children[0].0 == TableOfContents ==> w.start == data.children[0].1)
      && calls[1..] == FetchDeletions(data) + ChapterDeletions(data) + NoteWrites(calls[0].page, data.children, w.start, w.flushes)
  }

  /** The page writes among the calls of a shelf book are its `ShelfStep`. */
  lemma ShelfSyncedWrites(book: Book, ids: seq<string>, remote: string -> BookData,
                          repository: string, branch: string, now: int, calls: seq<Call>)
    requires ShelfSynced(book, ids, remote, repository, branch, now, calls)
    ensures PageWrites(calls) == ShelfStep(book, ids)
  {
    if book.bookId !in ids {
      assert calls[..0] == [];
    }
  }

  /** Syncing the notes of a book, once its page is written, touches no book page. */
  lemma NoteSyncNoPage(data: BookData, page: Id, start: Id, fs: seq<Flush>)
    requires Parses(data) && Realizes(fs, Plan(Merged(data), start))
    ensures PageWrites(FetchDeletions(data) + ChapterDeletions(data) + NoteWrites(page, data.children, start, fs)) == []
  {
    FetchDeletionsNoPage(data);
    ChapterDeletionsNoPage(data);
    PageWritesAppend(FetchDeletions(data), ChapterDeletions(data));
    NoteWritesNoPage(page, data.children, start, fs, Plan(Merged(data), start));
    PageWritesAppend(FetchDeletions(data) + ChapterDeletions(data), NoteWrites(page, data.children, start, fs));
  }

  /** A page call followed by calls that write no page writes exactly that page. */
  lemma PageCallFirst(calls: seq<Call>)
    requires |calls| >= 1 && WritesPage(calls[0]) && PageWrites(calls[1..]) == []
    ensures PageWrites(calls) == [(calls[0].bookId, calls[0].props.sort)]
  {
    assert calls == [calls[0]] + calls[1..];
    PageWritesAppend([calls[0]], calls[1..]);
    assert [calls[0]][..0] == [];
  }

  /** The page writes among the calls of a noted entry are its `NotedStep`: the note writes touch no page. */
  lemma NotedSyncedWrites(entry: NotedBook, latest: int, remote: string -> BookData,
                          repository: string, branch: string, now: int, calls: seq<Call>, w: NoteWrite)
    requires NotedSynced(entry, latest, remote, repository, branch, now, calls, w)
    ensures PageWrites(calls) == NotedStep(entry, latest)
  {
    if entry.sort > latest {
      var data := remote(entry.book.bookId);
      NoteSyncNoPage(data, calls[0].page, w.start, w.flushes);
      PageCallFirst(calls);
    }
  }

  // ---------------------------------------------------------------------------
  // The two passes

  function NotedIds(noted: seq<NotedBook>): (ids: seq<string>)
    ensures |ids| == |noted| && forall i :: 0 <= i < |noted| ==> ids[i] == noted[i].bookId
  {
    seq(|noted|, i requires 0 <= i < |noted| => noted[i].bookId)
  }

  /** The page write the shelf pass makes for one book: none when the book has notes. */
  function ShelfStep(book: Book, ids: seq<string>): seq<(string, int)> {
    if book.bookId in ids then [] else [(book.bookId, -1)]
  }

  /** The page writes of the shelf pass: each book not in the notebook list, with `Sort` -1. */
  function ShelfWrites(shelf: seq<Book>, ids: seq<string>): seq<(string, int)> {
    if shelf == [] then []
    else ShelfWrites(shelf[..|shelf| - 1], ids) + ShelfStep(shelf[|shelf| - 1], ids)
  }

  /** The page write the notebook pass makes for one entry: none at or below the watermark. */
  function NotedStep(entry: NotedBook, latest: int): seq<(string, int)> {
    if entry.sort <= latest then [] else [(entry.book.bookId, entry.sort)]
  }

  /** The page writes of the notebook pass: each book whose `sort` is above the watermark. */
  function NotedWrites(noted: seq<NotedBook>, latest: int): seq<(string, int)> {
    if noted == [] then []
    else NotedWrites(noted[..|noted| - 1], latest) + NotedStep(noted[|noted| - 1], latest)
  }

  /** The shelf pass syncs exactly the shelf books that have no notes, each with `Sort` -1. */
  lemma {:induction false} ShelfWritesIff(shelf: seq<Book>, ids: seq<string>, b: string, s: int)
    ensures (b, s) in ShelfWrites(shelf, ids) <==> s == -1 && b !in ids && exists book :: book in shelf && book.bookId == b
  {
    if shelf != [] {
      var n := |shelf| - 1;
      var front, last := shelf[..n], shelf[n];
      assert shelf == front + [last];
      ShelfWritesIff(front, ids, b, s);
      assert (b, s) in ShelfWrites(shelf, ids) <==> (b, s) in ShelfWrites(front, ids) || (b, s) in ShelfStep(last, ids);
    }
  }

  /** The notebook pass syncs exactly the books whose `sort` is above the watermark, with that `sort`. */
  lemma {:induction false} NotedWritesIff(noted: seq<NotedBook>, latest: int, b: string, s: int)
    ensures (b, s) in NotedWrites(noted, latest) <==>
      s > latest && exists entry :: entry in noted && entry.book.bookId == b && entry.sort == s
  {
    if noted != [] {
      var n := |noted| - 1;
      var front, last := noted[..n], noted[n];
      assert noted == front + [last];
      NotedWritesIff(front, latest, b, s);
      assert (b, s) in NotedWrites(noted, latest) <==> (b, s) in NotedWrites(front, latest) || (b, s) in NotedStep(last, latest);
    }
  }

  /** A run whose watermark is at least every `sort` of the notebook list syncs no notes. */
  lemma {:induction false} AllBelowWatermarkSkipped(noted: seq<NotedBook>, latest: int)
    requires forall k :: 0 <= k < |noted| ==> noted[k].sort <= latest
    ensures NotedWrites(noted, latest) == []
  {
    if noted != [] {
      var n := |noted| - 1;
      assert forall k :: 0 <= k < n ==> noted[..n][k] == noted[k];
      AllBelowWatermarkSkipped(noted[..n], latest);
    }
  }

  /**
   * After a run that synced notes, the next watermark is at least the `sort`
   * of the last book synced, so the next run skips that book.
   */
  lemma NextWatermarkCoversLastSync(pages: map<string, Page>, m: map<string, int>, before: seq<(string, int)>,
                                    noted: seq<NotedBook>, latest: int, next: int)
    requires SortOf(pages) == ApplyWrites(m, before + NotedWrites(noted, latest))
    requires NotedWrites(noted, latest) != []
    requires forall s :: s in Sorts(pages) ==> s <= next
    ensures var w := NotedWrites(noted, latest); w[|w| - 1].1 <= next
  {
    var w := NotedWrites(noted, latest);
    var all := before + w;
    assert all[|all| - 1] == w[|w| - 1];
    LastWriteWins(m, all);
    assert w[|w| - 1].1 in SortOf(pages).Values;
  }

  /** A `sort` above the watermark `get_sort` reads: above every `Sort` of the database, or above 0 when it is empty. */
  ghost predicate AboveWatermark(pages: map<string, Page>, sort: int) {
    if pages == map[] then sort > 0 else forall s :: s in Sorts(pages) ==> s < sort
  }

  /** Being above the watermark is being above the value `get_sort` returns. */
  lemma AboveWatermarkIff(pages: map<string, Page>, latest: int, sort: int)
    requires pages == map[] ==> latest == 0
    requires pages != map[] ==> latest in Sorts(pages) && forall s :: s in Sorts(pages) ==> s <= latest
    ensures AboveWatermark(pages, sort) <==> sort > latest
  {
  }

  /**
   * `__main__`: read the watermark, then sync the shelf books without notes
   * with `Sort` -1, then sync every noted book above the watermark, notes
   * included. A missing notebook list stops the run before any write.
   */
  method Run(store: Store, shelf: Option<seq<Book>>, noted: Option<seq<NotedBook>>, remote: string -> BookData,
             repository: string, branch: string, now: int)
    returns (ok: bool, latest: int, ghost shelfCalls: seq<seq<Call>>, ghost notedCalls: seq<seq<Call>>, ghost notes: seq<NoteWrite>)
    // only the notes of the books above the watermark are sorted
    requires noted.Some? ==>
      forall e :: e in noted.value && AboveWatermark(store.pages, e.sort) ==> Parses(remote(e.book.bookId))
    modifies store
    ensures old(store.pages) == map[] ==> latest == 0
    ensures old(store.pages) != map[] ==>
      latest in Sorts(old(store.pages)) && forall s :: s in Sorts(old(store.pages)) ==> s <= latest
    ensures noted.None? ==> !ok && store.log == old(store.log) && store.pages == old(store.pages)
    ensures noted.Some? ==> (ok
      && PageWrites(store.log) == PageWrites(old(store.log)) + RunWrites(shelf.GetOr([]), noted.value, latest)
      && SortOf(store.pages) == ApplyWrites(SortOf(old(store.pages)), RunWrites(shelf.GetOr([]), noted.value, latest)))
    // the full call log: the shelf books' calls, then the noted entries' calls
    ensures noted.Some? ==> (
      && store.log == old(store.log) + Flatten(shelfCalls) + Flatten(notedCalls)
      && |shelfCalls| == |shelf.GetOr([])|
      && (forall i :: 0 <= i < |shelfCalls| ==>
            ShelfSynced(shelf.GetOr([])[i], NotedIds(noted.value), remote, repository, branch, now, shelfCalls[i]))
      && |notedCalls| == |noted.value| == |notes|
      && (forall j :: 0 <= j < |notedCalls| ==>
            NotedSynced(noted.value[j], latest, remote, repository, branch, now, notedCalls[j], notes[j])))
  {
    latest := GetSort(store);
    if noted.None? {
      return false, latest, [], [], [];
    }
    ghost var writes0 := PageWrites(store.log);
    ghost var sorts0 := SortOf(store.pages);
    var ids := NotedIds(noted.value);
    forall e | e in noted.value && e.sort > latest ensures Parses(remote(e.book.bookId)) {
      AboveWatermarkIff(store.pages, latest, e.sort);
    }
    shelfCalls := ShelfPass(store, shelf.GetOr([]), ids, remote, repository, branch, now, writes0, sorts0);
    ghost var shelfWrites := ShelfWrites(shelf.GetOr([]), ids);
    notedCalls, notes := NotedPass(store, noted.value, latest, remote, repository, branch, now, writes0, sorts0, shelfWrites);
    Concat2(writes0, shelfWrites, NotedWrites(noted.value, latest));
    ok := true;
  }

  /** The page writes of a whole run, shelf pass first. */
  function RunWrites(shelf: seq<Book>, noted: seq<NotedBook>, latest: int): seq<(string, int)> {
    ShelfWrites(shelf, NotedIds(noted)) + NotedWrites(noted, latest)
  }

  /** One turn of the shelf pass extends its `Sort` values by the book's step. */
  lemma ShelfTurn(sorts0: map<string, int>, books: seq<Book>, i: nat, ids: seq<string>,
                  sorts: map<string, int>, sorts': map<string, int>)
    requires i < |books|
    requires sorts == ApplyWrites(sorts0, ShelfWrites(books[..i], ids)) && sorts' == ApplyWrites(sorts, ShelfStep(books[i], ids))
    ensures sorts' == ApplyWrites(sorts0, ShelfWrites(books[..i + 1], ids))
  {
    var front := books[..i + 1];
    assert front[..i] == books[..i] && front[i] == books[i];
    ApplyWritesAppend(sorts0, ShelfWrites(books[..i], ids), ShelfStep(books[i], ids));
  }

  /** The page writes among the calls of the shelf pass are `ShelfWrites`. */
  lemma {:induction false} ShelfCallsWrites(books: seq<Book>, ids: seq<string>, remote: string -> BookData,
                                            repository: string, branch: string, now: int, calls: seq<seq<Call>>)
    requires |calls| == |books|
    requires forall k :: 0 <= k < |books| ==> ShelfSynced(books[k], ids, remote, repository, branch, now, calls[k])
    ensures PageWrites(Flatten(calls)) == ShelfWrites(books, ids)
  {
    if books != [] {
      var n := |books| - 1;
      forall k | 0 <= k < n ensures ShelfSynced(books[..n][k], ids, remote, repository, branch, now, calls[..n][k]) {
        assert books[..n][k] == books[k] && calls[..n][k] == calls[k];
      }
      ShelfCallsWrites(books[..n], ids, remote, repository, branch, now, calls[..n]);
      ShelfSyncedWrites(books[n], ids, remote, repository, branch, now, calls[n]);
      PageWritesAppend(Flatten(calls[..n]), calls[n]);
    }
  }

  lemma ShelfSyncedSnoc(books: seq<Book>, i: nat, ids: seq<string>, remote: string -> BookData,
                        repository: string, branch: string, now: int, calls: seq<seq<Call>>, c: seq<Call>)
    requires i < |books| && |calls| == i
    requires forall k :: 0 <= k < i ==> ShelfSynced(books[k], ids, remote, repository, branch, now, calls[k])
    requires ShelfSynced(books[i], ids, remote, repository, branch, now, c)
    ensures forall k :: 0 <= k < i + 1 ==> ShelfSynced(books[k], ids, remote, repository, branch, now, (calls + [c])[k])
  {
    forall k | 0 <= k < i + 1 ensures ShelfSynced(books[k], ids, remote, repository, branch, now, (calls + [c])[k]) {
      if k < i {
        assert (calls + [c])[k] == calls[k];
      }
    }
  }

  /** One turn of the notebook pass extends its `Sort` values by the entry's step. */
  lemma NotedTurn(sorts0: map<string, int>, before: seq<(string, int)>, list: seq<NotedBook>, j: nat, latest: int,
                  sorts: map<string, int>, sorts': map<string, int>)
    requires j < |list|
    requires sorts == ApplyWrites(sorts0, before + NotedWrites(list[..j], latest))
    requires sorts' == ApplyWrites(sorts, NotedStep(list[j], latest))
    ensures sorts' == ApplyWrites(sorts0, before + NotedWrites(list[..j + 1], latest))
  {
    var done, step := NotedWrites(list[..j], latest), NotedStep(list[j], latest);
    assert list[..j + 1][..j] == list[..j];
    assert NotedWrites(list[..j + 1], latest) == done + step;
    Concat2(before, done, step);
    ApplyWritesAppend(sorts0, before + done, step);
  }

  /** The page writes among the calls of the notebook pass are `NotedWrites`. */
  lemma {:induction false} NotedCallsWrites(list: seq<NotedBook>, latest: int, remote: string -> BookData,
                                            repository: string, branch: string, now: int,
                                            calls: seq<seq<Call>>, notes: seq<NoteWrite>)
    requires |calls| == |list| == |notes|
    requires forall k :: 0 <= k < |list| ==> NotedSynced(list[k], latest, remote, repository, branch, now, calls[k], notes[k])
    ensures PageWrites(Flatten(calls)) == NotedWrites(list, latest)
  {
    if list != [] {
      var n := |list| - 1;
      forall k | 0 <= k < n
        ensures NotedSynced(list[..n][k], latest, remote, repository, branch, now, calls[..n][k], notes[..n][k])
      {
        assert list[..n][k] == list[k] && calls[..n][k] == calls[k] && notes[..n][k] == notes[k];
      }
      NotedCallsWrites(list[..n], latest, remote, repository, branch, now, calls[..n], notes[..n]);
      NotedSyncedWrites(list[n], latest, remote, repository, branch, now, calls[n], notes[n]);
      PageWritesAppend(Flatten(calls[..n]), calls[n]);
    }
  }

  lemma NotedSyncedSnoc(list: seq<NotedBook>, j: nat, latest: int, remote: string -> BookData,
                        repository: string, branch: string, now: int,
                        calls: seq<seq<Call>>, notes: seq<NoteWrite>, c: seq<Call>, w: NoteWrite)
    requires j < |list| && |calls| == j == |notes|
    requires forall k :: 0 <= k < j ==> NotedSynced(list[k], latest, remote, repository, branch, now, calls[k], notes[k])
    requires NotedSynced(list[j], latest, remote, repository, branch, now, c, w)
    ensures forall k :: 0 <= k < j + 1 ==>
      NotedSynced(list[k], latest, remote, repository, branch, now, (calls + [c])[k], (notes + [w])[k])
  {
    forall k | 0 <= k < j + 1
      ensures NotedSynced(list[k], latest, remote, repository, branch, now, (calls + [c])[k], (notes + [w])[k])
    {
      if k < j {
        assert (calls + [c])[k] == calls[k] && (notes + [w])[k] == notes[k];
      }
    }
  }

  /** The first loop of `__main__`: every shelf book that is not in the notebook list. */
  method ShelfPass(store: Store, books: seq<Book>, ids: seq<string>, remote: string -> BookData,
                   repository: string, branch: string, now: int,
                   ghost writes0: seq<(string, int)>, ghost sorts0: map<string, int>)
    returns (ghost calls: seq<seq<Call>>)
    requires PageWrites(store.log) == writes0 && SortOf(store.pages) == sorts0
    modifies store
    ensures |calls| == |books| && store.log == old(store.log) + Flatten(calls)
    ensures forall i :: 0 <= i < |books| ==> ShelfSynced(books[i], ids, remote, repository, branch, now, calls[i])
    ensures PageWrites(store.log) == writes0 + ShelfWrites(books, ids)
    ensures SortOf(store.pages) == ApplyWrites(sorts0, ShelfWrites(books, ids))
  {
    ghost var log0 := store.log;
    assert log0 + [] == log0;
    calls := [];
    var i := 0;
    while i < |books|
      invariant 0 <= i <= |books|
      invariant |calls| == i && store.log == log0 + Flatten(calls)
      invariant forall k :: 0 <= k < i ==> ShelfSynced(books[k], ids, remote, repository, branch, now, calls[k])
      invariant SortOf(store.pages) == ApplyWrites(sorts0, ShelfWrites(books[..i], ids))
    {
      ghost var sorts := SortOf(store.pages);
      ghost var c := SyncShelved(store, books[i], ids, remote, repository, branch, now);
      ShelfTurn(sorts0, books, i, ids, sorts, SortOf(store.pages));
      ShelfSyncedSnoc(books, i, ids, remote, repository, branch, now, calls, c);
      FlattenSnoc(log0, calls, c);
      calls := calls + [c];
      i := i + 1;
    }
    assert books[..i] == books;
    ShelfCallsWrites(books, ids, remote, repository, branch, now, calls);
    PageWritesAppend(log0, Flatten(calls));
  }

  /** One book of the shelf pass: skipped when it has notes, otherwise its page is written with `Sort` -1. */
  method SyncShelved(store: Store, book: Book, ids: seq<string>, remote: string -> BookData,
                     repository: string, branch: string, now: int) returns (ghost calls: seq<Call>)
    modifies store
    ensures store.log == old(store.log) + calls
    ensures ShelfSynced(book, ids, remote, repository, branch, now, calls)
    ensures book.bookId in ids ==> store.pages == old(store.pages)
    ensures book.bookId !in ids ==>
      && store.pages == old(store.pages)[book.bookId := Page(calls[0].page, -1)]
      && (calls[0].UpdatePage? <==> book.bookId in old(store.pages))
      && (calls[0].UpdatePage? ==> calls[0].page == old(store.pages)[book.bookId].id)
    ensures PageWrites(store.log) == PageWrites(old(store.log)) + ShelfStep(book, ids)
    ensures SortOf(store.pages) == ApplyWrites(SortOf(old(store.pages)), ShelfStep(book, ids))
  {
    if book.bookId in ids {
      calls := [];
      assert store.log + [] == store.log;
      assert PageWrites(store.log) + [] == PageWrites(store.log);
    } else {
      var page := Consolidate(store, book.bookId, book, -1, repository, branch, remote(book.bookId).readInfo, now);
      calls := [store.log[|store.log| - 1]];
      OneSortWrite(old(store.pages), book.bookId, Page(page, -1));
    }
  }

  /** Writing one page's `Sort` is one step of `ApplyWrites`. */
  lemma OneSortWrite(pages: map<string, Page>, bookId: string, p: Page)
    ensures SortOf(pages[bookId := p]) == ApplyWrites(SortOf(pages), [(bookId, p.sort)])
  {
    assert [(bookId, p.sort)][..0] == [];
    assert SortOf(pages[bookId := p]) == SortOf(pages)[bookId := p.sort];
  }

  /** The second loop of `__main__`: every noted book above the watermark, notes included. */
  method NotedPass(store: Store, list: seq<NotedBook>, latest: int, remote: string -> BookData,
                   repository: string, branch: string, now: int,
                   ghost writes0: seq<(string, int)>, ghost sorts0: map<string, int>, ghost before: seq<(string, int)>)
    returns (ghost calls: seq<seq<Call>>, ghost notes: seq<NoteWrite>)
    requires forall e :: e in list && e.sort > latest ==> Parses(remote(e.book.bookId))
    requires PageWrites(store.log) == writes0 + before && SortOf(store.pages) == ApplyWrites(sorts0, before)
    modifies store
    ensures |calls| == |list| == |notes| && store.log == old(store.log) + Flatten(calls)
    ensures forall j :: 0 <= j < |list| ==> NotedSynced(list[j], latest, remote, repository, branch, now, calls[j], notes[j])
    ensures PageWrites(store.log) == writes0 + before + NotedWrites(list, latest)
    ensures SortOf(store.pages) == ApplyWrites(sorts0, before + NotedWrites(list, latest))
  {
    assert before + [] == before;
    ghost var log0 := store.log;
    assert log0 + [] == log0;
    calls, notes := [], [];
    var j := 0;
    while j < |list|
      invariant 0 <= j <= |list|
      invariant |calls| == j == |notes| && store.log == log0 + Flatten(calls)
      invariant forall k :: 0 <= k < j ==> NotedSynced(list[k], latest, remote, repository, branch, now, calls[k], notes[k])
      invariant SortOf(store.pages) == ApplyWrites(sorts0, before + NotedWrites(list[..j], latest))
    {
      ghost var sorts := SortOf(store.pages);
      ghost var c, w := SyncNoted(store, list[j], latest, remote, repository, branch, now);
      NotedTurn(sorts0, before, list, j, latest, sorts, SortOf(store.pages));
      NotedSyncedSnoc(list, j, latest, remote, repository, branch, now, calls, notes, c, w);
      FlattenSnoc(log0, calls, c);
      calls, notes := calls + [c], notes + [w];
      j := j + 1;
    }
    assert list[..j] == list;
    NotedCallsWrites(list, latest, remote, repository, branch, now, calls, notes);
    PageWritesAppend(log0, Flatten(calls));
  }

  /** One entry of the notebook pass: skipped at or below the watermark, synced above it. */
  method SyncNoted(store: Store, entry: NotedBook, latest: int, remote: string -> BookData,
                   repository: string, branch: string, now: int) returns (ghost calls: seq<Call>, ghost w: NoteWrite)
    requires entry.sort > latest ==> Parses(remote(entry.book.bookId))
    modifies store
    ensures store.log == old(store.log) + calls
    ensures NotedSynced(entry, latest, remote, repository, branch, now, calls, w)
    ensures entry.sort <= latest ==> store.pages == old(store.pages)
    ensures entry.sort > latest ==>
      && store.pages == old(store.pages)[entry.book.bookId := Page(calls[0].page, entry.sort)]
      && (calls[0].UpdatePage? <==> entry.book.bookId in old(store.pages))
      && (calls[0].UpdatePage? ==> calls[0].page == old(store.pages)[entry.book.bookId].id)
    ensures PageWrites(store.log) == PageWrites(old(store.log)) + NotedStep(entry, latest)
    ensures SortOf(store.pages) == ApplyWrites(SortOf(old(store.pages)), NotedStep(entry, latest))
  {
    if entry.sort <= latest {
      calls, w := [], NoteWrite(0, []);
      assert store.log + [] == store.log;
    } else {
      var book := entry.book;
      var data := remote(book.bookId);
      var page := Consolidate(store, book.bookId, book, entry.sort, repository, branch, data.readInfo, now);
      ghost var log1 := store.log;
      ghost var pageCall := log1[|log1| - 1];
      OneSortWrite(old(store.pages), book.bookId, Page(page, entry.sort));
      ghost var start, fs := SyncBook(store, page, data);
      ghost var tail := FetchDeletions(data) + ChapterDeletions(data) + NoteWrites(page, data.children, start, fs);
      calls, w := [pageCall] + tail, NoteWrite(start, fs);
      Concat2(old(store.log), [pageCall], tail);
      assert calls[1..] == tail;
    }
    NotedSyncedWrites(entry, latest, remote, repository, branch, now, calls, w);
    PageWritesAppend(old(store.log), calls);
  }
}
