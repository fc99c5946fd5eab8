# WeRead to Notion synchronizer: a Dafny model of the sync-and-reconcile core

The synchronizer copies a reader's books, highlights ("bookmarks"), reviews
and chapter headings from the WeRead reading service into a Notion
workspace. Each book becomes one page of a book database. Each note becomes a
block on that page, and three index databases (bookmarks, reviews, chapters)
record which block shows which note. A second run must not duplicate what
the first one wrote. So every run:

- reads a watermark (the largest `Sort` of the book database);
- writes a page for each shelf book that has no notes, with `Sort` -1;
- for each noted book above the watermark:
  - writes its page;
  - reconciles the fetched highlights and reviews against their index
    records, so a note that already has a block keeps it and blocks of
    vanished notes are deleted;
  - merges the notes with the chapter headings in reading order;
  - writes the new notes into the page in batches of at most 100 blocks,
    each batch anchored after the block before it;
  - records every created block in the index of its kind.

The model is split into one module per part of `scripts/weread.py`:

| module | file | models |
|---|---|---|
| `Wrappers` | wrappers.dfy | absent dictionary keys and `None` as `Option` |
| `PyDict` | pydict.dfy | Python dictionaries as values: insertion-ordered keys, `d[k] = v`, `pop`, `values()` |
| `Domain` | domain.dfy | note records, blocks, `content_to_block`, the sort key of `sort_notes` |
| `BookPage` | bookpage.dfy | the pure parts of `insert_book_to_notion`, `consolidate2Page` and `download_image` |
| `RemoteStore` | remotestore.dfy | the Notion side: a class whose methods append to a ghost call log and hand out fresh ids, plus the book database as a map |
| `Reconciler` | reconciler.dfy | `get_bookmark_list`, `get_review_list` |
| `NoteOrder` | sorting.dfy | the stable `sorted` call of `sort_notes` |
| `NoteMerger` | merger.dfy | `sort_notes` |
| `BlockBatcher` | batcher.dfy | `append_blocks`, `append_blocks_to_notion` |
| `SyncDriver` | driver.dfy | `check`, `get_sort`, `consolidate2Page`, the two loops of `__main__` |

The code works in two styles, and the model follows it.

- **Loops that update state are methods.** These are the matching loop that
  pops from `dict1`, the grouping and emitting loops of `sort_notes`, the
  batching loop of `append_blocks` and the two passes of `__main__`. Each
  becomes a method with loop invariants over a `Store` object. Each method
  is proved against a specification function:
  - `Matched` and `Orphans` for the reconciliation;
  - `Interleave` of `StableSort` and `ChapterOrphans` for the merge;
  - `Plan` for the batching;
  - `ShelfSynced` and `NotedSynced`, the calls made for one book, for the driver's full call log;
  - `ShelfWrites`, `NotedWrites` and `ApplyWrites` for the page writes and `Sort` values.
- **Pure branches are functions.** These are the sort key, `content_to_block`,
  the read-progress branches and the cover rewrite.
- **Properties are lemmas.** The promised properties are proved as lemmas
  about those functions.

**Behaviour of the code worth knowing:**

- **Notebook order.** The notebook pass walks the notebook list in the order
  the service returns it. Nothing sorts it by `sort`, so books are synced in
  list order, not in ascending `sort` order.
- **Range offsets.** `int()` raises on a range prefix that is not a number;
  it does not default to offset 0. The model covers the numeric prefixes
  (`RangeParses`). It requires this only of the books whose notes are sorted:
  those above the watermark (`AboveWatermark`).
- **Re-created block.** A record that already has a block, read while 100
  new blocks are waiting, is sent again as a new block. The cap branch is
  tested first, so such a record is created a second time.
  `BlockBatcher.CapResendsExistingRecord` states the behaviour of the code.
- **Chained anchors.** A batch after a full batch is chained after that
  batch's last created block. A batch after a record with a block goes after
  that record's block. A batch is never anchored after the previous flush
  otherwise (`BlockBatcher.AfterPreviousFollowsFullBatch`).
- **Missing notebook list.** The ids of the notebook list are taken before
  the `None` test. A missing notebook list therefore stops the run before
  any page is written, and the later guard is never reached.
- **Watermark after a shelf pass.** The watermark query keeps every page with
  a `Sort`, including the -1 pages of the shelf pass. The watermark of a
  later run can therefore be -1 rather than 0 when only shelf books exist.

## Model

| member | source | states |
|---|---|---|
| PyDict.Put | scripts/weread.py:258-260 | `d[k] = v` keeps the dictionary well formed and sets exactly the entry of `k`; an existing key keeps its position, a new key goes last |
| PyDict.Without | scripts/weread.py:54-57 | removing a set of keys keeps exactly the other keys and their values; the key sequence is `FilterOut` of the old one, so the order is kept |
| PyDict.FilterOutKeepsOrder | scripts/weread.py:56-57 | the remaining keys are a subsequence of the old keys: at increasing positions, and every key outside the removed set is among them |
| PyDict.Values | scripts/weread.py:57 | `values()` lists the value of every key, in key order |
| PyDict.PopWithout | scripts/weread.py:56 | popping a present key after removing `gone` is removing `gone` plus that key |
| PyDict.ValuesWithout | scripts/weread.py:57 | a value survives the removals exactly when some remaining key carries it |
| PyDict.WithoutAbsent | scripts/weread.py:54-56 | removing a key that is absent or already removed changes nothing |
| Domain.ToBlock | scripts/weread.py:321-337 | a heading exactly for chapter records; a heading carries the chapter's level and title; a callout otherwise, with `markText` for a highlight and `content` for a review, carrying `reviewId`, style and colour |
| Domain.ToBlocks | scripts/weread.py:321-337 | one block per record, in order |
| Domain.BeforeDash | scripts/weread.py:251-252 | the text before the first '-' is a dash-free prefix, followed by a '-' when shorter than the text |
| NoteOrder.Insert | scripts/weread.py:246-254 | placing one record keeps every range parseable and adds one record |
| NoteOrder.InsertPermutes | scripts/weread.py:246-254 | placing a record adds it and loses nothing (multiset) |
| NoteOrder.InsertSorted | scripts/weread.py:246-254 | placing a record into a key-sorted stream keeps it key-sorted |
| NoteOrder.StableSortSorted | scripts/weread.py:246-254 | the sorted stream is ordered by (chapterUid default 1, start offset default 0) |
| NoteOrder.StableSortPermutes | scripts/weread.py:246-254 | sorting is a permutation of its input |
| NoteOrder.StableSortStable | scripts/weread.py:246-254 | records with equal keys keep their input order |
| NoteOrder.StableSortMembers | scripts/weread.py:246-254 | the sorted stream holds exactly the input records |
| NoteOrder.WithKeyAppend | scripts/weread.py:246-254 | the records of one key in a concatenation are those of each part, in order |
| NoteOrder.InsertWithKey | scripts/weread.py:246-254 | placing a record appends it after the records of its own key and changes no other key's records |
| Reconciler.BlockIndexSound | scripts/weread.py:46-51 | every record's external id is a key of `dict1`, and each entry is the block of a record with that id |
| Reconciler.IndexOfLastRecord | scripts/weread.py:46-51 | an id no later record repeats maps to its record's block (later duplicates overwrite) |
| Reconciler.RecordIndex | scripts/weread.py:52 | every record's block has an entry in `dict2` |
| Reconciler.RecordIndexSound | scripts/weread.py:52 | every entry of `dict2` maps a block to the id of a record that carries that block |
| Reconciler.RecordOfLastRecord | scripts/weread.py:52 | the last record carrying a block wins: its id is the block's entry in `dict2` |
| Reconciler.Indexes | scripts/weread.py:46-52 | the two lookups built from the query results; every block of `dict1` has an index record in `dict2` |
| Reconciler.DeleteCalls | scripts/weread.py:57-59 | two deletions per orphaned block, all of them deletions |
| Reconciler.DeleteOrphans | scripts/weread.py:57-59 | the deletion loop deletes each block left in `dict1`, in key order, each followed by its index record |
| Reconciler.SeenIds | scripts/weread.py:54-56 | the external ids carried by the fetched items, and nothing else |
| Reconciler.Claim | scripts/weread.py:55-56 | an item whose id is still in `dict1` takes the block, which leaves the dictionary; otherwise nothing changes |
| Reconciler.ConsumeStep | scripts/weread.py:54-56 | the entry of item `i` is still present exactly when the item is matched, and the dictionary stays the original minus the ids seen |
| Reconciler.MatchStep | scripts/weread.py:54-56 | one turn of the matching loop keeps its invariant |
| Reconciler.MatchAll | scripts/weread.py:54-56 | each item becomes `Matched` (the block of its id unless an earlier item took it) and `dict1` ends as the original minus every seen id |
| Reconciler.Reconcile | scripts/weread.py:40-81 | `get_bookmark_list` / `get_review_list`: same length, every item `Matched`, the log grows by exactly the deletions of `Orphans`, the book pages untouched |
| Reconciler.OrphansAreUnmatched | scripts/weread.py:54-59 | a block is deleted exactly when some id maps to it and no fetched item carries that id |
| Reconciler.OrphanIsUnmatched | scripts/weread.py:54-59 | every deleted block is the block of an id no item carries |
| Reconciler.UnmatchedIsOrphan | scripts/weread.py:54-59 | the block of every id no item carries is deleted |
| Reconciler.Unseen | scripts/weread.py:54-56 | an id is unseen exactly when no item carries it |
| Reconciler.MatchedBlocksSurvive | scripts/weread.py:54-59 | when no two ids share a block, a block some item takes over is never deleted |
| Reconciler.RerunMatchesEveryItem | scripts/weread.py:46-56 | on a rerun with one record per item, every item gets its own record's block |
| Reconciler.RerunDeletesNothing | scripts/weread.py:54-59 | on such a rerun nothing is deleted |
| Reconciler.SecondOrphaned | scripts/weread.py:54-59 | two records against one fetched highlight: only the second record's block is orphaned |
| Reconciler.OneOfTwoDeleted | scripts/weread.py:54-59 | in that example the deletions are the second block and then its index record |
| NoteMerger.DistinctUidsSound | scripts/weread.py:255-260 | the grouping dictionary's keys list every chapter uid once and nothing else |
| NoteMerger.GroupMembers | scripts/weread.py:255-260 | a group holds records of its own chapter only |
| NoteMerger.Heading | scripts/weread.py:262-265 | the chapter record shown for a chapter differs from the table's only in `blockId`, which is the indexed block if there is one |
| NoteMerger.GroupingFollowsBoundaries | scripts/weread.py:255-266 | on a uid-sorted stream the two loops produce `Interleave`: each heading right before the record opening its chapter's run |
| NoteMerger.SameChapterStep | scripts/weread.py:255-266 | a record continuing the last chapter joins the last group and the emitted stream grows by it |
| NoteMerger.NewChapterStep | scripts/weread.py:255-266 | a record of a new chapter adds a key, its heading (when the table has it) and a one-record group |
| NoteMerger.MergeIsInterleave | scripts/weread.py:246-266 | the emitted stream of the stably sorted records is their interleaving with the headings |
| NoteMerger.InterleaveKeepsAnnotations | scripts/weread.py:255-266 | every annotation is emitted exactly once, in sorted order, whether or not its chapter has a heading |
| NoteMerger.EmitChapters | scripts/weread.py:261-266 | the chapter records emitted are the headings of the keys the table has, in key order |
| NoteMerger.DistinctUidsIncrease | scripts/weread.py:246-260 | in a sorted stream the chapters appear in strictly increasing uid order |
| NoteMerger.InterleaveHeadings | scripts/weread.py:255-266 | one heading per chapter that has annotations and a table entry, in increasing chapter order, and no other chapter record |
| NoteMerger.HeadingPrecedesChapter | scripts/weread.py:261-266 | every emitted heading is immediately followed by an annotation of its chapter |
| NoteMerger.ChapterOrphans | scripts/weread.py:262-269 | every chapter block left in `dict1` has an index record to delete |
| NoteMerger.VisitedIffUsed | scripts/weread.py:261-264 | a chapter's block is popped exactly when the chapter has annotations and a table entry |
| NoteMerger.UnusedChapterDeleted | scripts/weread.py:262-269 | the block of a chapter without annotations, or missing from the table, is deleted |
| NoteMerger.UsedChapterKept | scripts/weread.py:262-269 | the block of a chapter that gets a heading is kept, unless another chapter's record names the same block |
| NoteMerger.SameChapters | scripts/weread.py:246-264 | sorting does not change which chapters get a heading |
| NoteMerger.GroupByChapter | scripts/weread.py:255-260 | the first loop builds the grouping dictionary: keys in first-appearance order, each chapter's records in order |
| NoteMerger.GroupedStep | scripts/weread.py:257-260 | one record more keeps the grouping invariant |
| NoteMerger.TakeHeading | scripts/weread.py:262-265 | a chapter in the table yields its record, taking over and popping the indexed block; otherwise nothing |
| NoteMerger.PlaceStep | scripts/weread.py:261-266 | one key of the second loop keeps the emitting invariant |
| NoteMerger.PlaceKey | scripts/weread.py:261-266 | one turn of the second loop: the heading and the group of key `j` |
| NoteMerger.PlaceHeadings | scripts/weread.py:261-266 | the second loop emits `Emit` over the keys and leaves `dict1` without the popped chapters |
| NoteMerger.SortNotes | scripts/weread.py:230-271 | no table: the list as is, nothing deleted; no list: empty, nothing deleted; both: `Interleave` of the stable sort, with exactly the `ChapterOrphans` deletions |
| BlockBatcher.PlanStep | scripts/weread.py:288-307 | the three branches for one record: cap flush first, then a record with a block, then a new record |
| BlockBatcher.PlanBatchSizes | scripts/weread.py:285-310 | every append request carries between 1 and 100 blocks |
| BlockBatcher.PlanSendsEveryNewRecord | scripts/weread.py:285-310 | every record without a block is sent exactly once, in stream order |
| BlockBatcher.NewOfAppend | scripts/weread.py:285-310 | the new records of a concatenation are those of each part |
| BlockBatcher.AfterPreviousFollowsFullBatch | scripts/weread.py:289-291 | a batch is chained after the previous request's last block only when that request was full |
| BlockBatcher.AnchorsAreKnownBlocks | scripts/weread.py:297-304 | every other anchor is the starting anchor or the block of a record in the stream |
| BlockBatcher.PlanAnchors | scripts/weread.py:276-304 | the first batch goes after the table of contents or after a record with a block, and chaining follows full batches only |
| BlockBatcher.NewRecordsJoin | scripts/weread.py:305-307 | new records read while the batch has room join it |
| BlockBatcher.AllNewBatches | scripts/weread.py:285-310 | n new records become ceil(n/100) chained requests holding them in order (100 give one, 101 give two) |
| BlockBatcher.AllExistingSendsNothing | scripts/weread.py:297-304 | a stream whose records all have blocks sends nothing |
| BlockBatcher.CapResendsExistingRecord | scripts/weread.py:289-296 | a record with a block read after 100 waiting records is sent again, chained after the full batch |
| BlockBatcher.ExistingBetweenRuns | scripts/weread.py:297-310 | a record with a block between two runs of new records gives exactly two requests, the second after that block |
| BlockBatcher.AbstractCallsCount | scripts/weread.py:346-351 | one extra request per record with a non-empty `abstract`, each appending one quote |
| BlockBatcher.WithBlockIds | scripts/weread.py:352-353 | each record gets the id of the block created for it, in batch order |
| BlockBatcher.Flushed | scripts/weread.py:290-303 | sending the waiting batch extends the realized plan, the call log and the written records by one flush |
| BlockBatcher.AppendBlocksToNotion | scripts/weread.py:340-354 | one insertion after `after`, then the quote requests, and the records returned with their new block ids |
| BlockBatcher.FlushPending | scripts/weread.py:290-303 | a flush realizes the next batch of the plan and its last created block becomes the chained anchor |
| BlockBatcher.ReadRecord | scripts/weread.py:288-307 | one turn of the loop keeps the plan, anchor, pending batch and log invariants |
| BlockBatcher.SendBatches | scripts/weread.py:285-310 | the loop and the final flush carry out exactly `Plan` of the stream |
| BlockBatcher.AppendBlocks | scripts/weread.py:274-318 | an existing table of contents is the start anchor (else one is appended first); the flushes realize `Plan`; then one index insertion per created block |
| BlockBatcher.InsertCallsByKind | scripts/weread.py:311-318 | one insertion per created block, in creation order, into the index chosen by `bookmarkId`, then `reviewId`, else chapter |
| BlockBatcher.InsertIndexRecords | scripts/weread.py:311-318 | the insertion loop makes exactly those insertions |
| RemoteStore.Store.FindBook | scripts/weread.py:84-92 | the page whose BookId is the book's, if any |
| RemoteStore.Store.CreateBookPage | scripts/weread.py:175-179 | a fresh page with the given `Sort` |
| RemoteStore.Store.UpdateBookPage | scripts/weread.py:180-181 | the page keeps its id and takes the given `Sort` |
| RemoteStore.Store.QueryTopSort | scripts/weread.py:187-199 | at most one result, none exactly when the database is empty, and the largest `Sort` otherwise |
| RemoteStore.Store.AppendAfterBlock | scripts/weread.py:341-343 | one new block per child, inserted after `after` |
| BookPage.ReadingStateOf | scripts/weread.py:128-152 | finished exactly for `markedStatus` 4, then progress 100; otherwise the reported progress; reading time and days as reported or 0; the finishing time is `finishedDate`, else (with a `readDetail`) its `lastReadingDate` or the clock, else `readingBookDate` or the clock, shifted by eight hours; the last reading time is written exactly in the `lastReadingDate` case and the start time exactly when `beginReadingDate` is present; the introduction is the book's `intro` |
| BookPage.LastSegment | scripts/weread.py:211 | the last segment of a URL contains no '/' |
| BookPage.LastSegmentIsSuffix | scripts/weread.py:211 | it is a suffix of the URL, preceded by '/' unless it is the whole URL |
| BookPage.FileName | scripts/weread.py:211-212 | the file name is the last segment plus ".jpg" and contains no '/' |
| BookPage.CoverFor | scripts/weread.py:360-366 | an official-account cover ending in "/0" gets ".jpg" appended; the result is then the repository's raw URL of "cover/" plus `FileName` for a web cover not ending in ".jpg", and the cover itself otherwise; a web result always ends in ".jpg" |
| BookPage.OfficialAccountCover | scripts/weread.py:360-362 | an official-account web cover ending in "/0" is kept with ".jpg" appended and is not downloaded |
| BookPage.OtherAuthorCoverDownloaded | scripts/weread.py:360-366 | another author's web cover ending in "/0" is replaced by the repository's copy |
| BookPage.FileNameIsSegment | scripts/weread.py:211 | the saved file name is exactly the last segment followed by ".jpg" |
| BookPage.BookPropsOf | scripts/weread.py:113-173 | the page gets the given `Sort` and cover; the icon is the cover when it starts with `http`, else the bookmark icon; reading properties exist exactly when a read-progress record exists, and are then `ReadingStateOf` that record |
| SyncDriver.GetSort | scripts/weread.py:185-202 | 0 for an empty book database, otherwise the largest `Sort` present |
| SyncDriver.AboveWatermarkIff | scripts/weread.py:185-202 | a `sort` is above the value `get_sort` returns exactly when it is above every `Sort` of the database, or above 0 for an empty one |
| SyncDriver.SortOf | scripts/weread.py:185-202 | each page's BookId maps to that page's `Sort`, and the values are the `Sort` values of the database |
| SyncDriver.Consolidate | scripts/weread.py:356-376 | `check` then `insert_book_to_notion`: an existing page keeps its id and is updated, else one is created; either way the page gets the given `Sort` and one page write is logged |
| SyncDriver.MatchedList | scripts/weread.py:54-56 | matching changes nothing in an item but its `blockId` |
| SyncDriver.Incoming | scripts/weread.py:407-409 | as many entries as highlights and reviews, each highlight matched to its block in order and then each review matched to its block, all still parseable |
| SyncDriver.FetchNotes | scripts/weread.py:407-409 | the reconciled highlights then reviews, with exactly their deletions |
| SyncDriver.FlushLogWritesNoPage | scripts/weread.py:340-354 | no request of a flush writes a book page |
| SyncDriver.FetchDeletionsNoPage | scripts/weread.py:40-81 | reconciling highlights and reviews writes no book page |
| SyncDriver.NoteWritesNoPage | scripts/weread.py:274-318 | writing the notes into the page writes no book page |
| SyncDriver.SyncBook | scripts/weread.py:406-411 | the deletions of the three reconciliations, then the table of contents, the flushes realizing `Plan` of the merged notes and the index insertions; no book page written |
| SyncDriver.ShelfWritesIff | scripts/weread.py:390-396 | the shelf pass writes exactly the shelf books whose id is not in the notebook list, each with `Sort` -1 |
| SyncDriver.NotedWritesIff | scripts/weread.py:398-405 | the notebook pass writes exactly the books whose `sort` is above the watermark, each with its `sort` |
| SyncDriver.AllBelowWatermarkSkipped | scripts/weread.py:398-402 | a notebook list entirely at or below the watermark syncs nothing |
| SyncDriver.NextWatermarkCoversLastSync | scripts/weread.py:185-202 | after a run that synced notes, the next watermark is at least the `sort` of the last book synced, so the next run skips it |
| SyncDriver.ShelfPass | scripts/weread.py:390-396 | the shelf loop's whole log is the calls of each book in shelf order, each `ShelfSynced`; its page writes are `ShelfWrites` and the `Sort` values become `ApplyWrites` of them |
| SyncDriver.SyncShelved | scripts/weread.py:391-396 | one shelf book: no call and no change when it has notes; else exactly one call, an update of its existing page or the creation of one, with `Sort` -1 |
| SyncDriver.NotedPass | scripts/weread.py:398-411 | the notebook loop's whole log is the calls of each entry in list order, each `NotedSynced` against the one watermark, requiring parseable notes only of entries above it; its page writes are `NotedWrites` and the `Sort` values follow them |
| SyncDriver.SyncNoted | scripts/weread.py:399-411 | one entry: no call and no change at or below the watermark; above it, where its notes must parse, its page call with its `sort`, then the three reconciliations' deletions and the merged notes written in the batches of `Plan` |
| SyncDriver.ShelfSyncedWrites | scripts/weread.py:391-396 | the page writes among a shelf book's calls are its `ShelfStep` |
| SyncDriver.NotedSyncedWrites | scripts/weread.py:399-411 | the page writes among an entry's calls are its `NotedStep`: the note sync writes no page |
| SyncDriver.ShelfCallsWrites | scripts/weread.py:390-396 | the page writes of the shelf pass's calls are `ShelfWrites` |
| SyncDriver.NotedCallsWrites | scripts/weread.py:398-411 | the page writes of the notebook pass's calls are `NotedWrites` |
| SyncDriver.NoteSyncNoPage | scripts/weread.py:406-411 | the deletions and note writes of one book write no book page |
| SyncDriver.Run | scripts/weread.py:378-411 | the watermark is the one of the database before the run; a missing notebook list writes nothing; only books above that watermark (`AboveWatermark`) need parseable notes; otherwise the whole log is the shelf books' calls then the noted entries' calls, each `ShelfSynced` or `NotedSynced`, the page writes are the shelf writes then the notebook writes, and the `Sort` values follow them |

## Left out

- The HTTP clients of WeRead and Notion and the `requests` download are not part of this model. What the services answer enters as parameters (`BookData`, the shelf and notebook lists, the page's current children) or as the `Store` state. Requests to the workspace are entries of a call log.
- The block and property builders of `utils` (`get_callout`, `get_heading`, `get_quote`, `get_title`, `get_date` and the others) are foreign code. A block is modelled as the arguments it is built from.
- Title, ISBN, rating, link, author and category relations and `get_date_relation` are page properties that no other part reads back. `BookProps` keeps only `Sort`, cover, icon and the reading state.
- The relation lookups are not modelled. `get_relation_id` (scripts/weread.py:107-108, 120-121) queries the author and category databases and may create pages there; `get_date_relation` (scripts/weread.py:169) does the same for the date databases. These requests are not in the call log, so the whole log of `ShelfPass`, `NotedPass` and `Run` omits them.
- Date formatting (`utcfromtimestamp`, `strftime`, `format_time`) is left out. Times stay integer seconds, shifted by eight hours, and the clock is the parameter `now`.
- `readingProgress / 100` is a float. The model keeps the integer percentage.
- The sort key's `int()` of a range prefix is covered only for prefixes of decimal digits, a precondition of the merge (`RangeParses`). Python's full `int` grammar (signs, spaces, underscores) and the exception it raises otherwise are not modelled.
- The filesystem work of `download_image` is not modelled; only its file-name rule is. Neither is the existence check that skips a download.
- `argparse`, the environment variables and the `print` progress lines are configuration and diagnostics.
- Records are values. The code writes `blockId` into the very dictionaries it later passes on, including the shared chapter table. The model returns updated copies instead, so the aliasing of those dictionaries is not captured.
- Several pages with the same BookId are not modelled: the book database is a map from BookId to one page, while `check` (scripts/weread.py:84-92) takes the first of possibly several results.
- The `is_not_empty` filter of the watermark query is not modelled: every page of the book database carries an integer `Sort`.
- Failures of remote requests (exceptions, partial batches) are not modelled. Every request succeeds and answers with one id per created block.
