/**
 * Merging the chapter records of a book into its sorted annotations
 * (`sort_notes`): the annotations are sorted, grouped by chapter uid in order
 * of first appearance, and each group is preceded by the heading of its
 * chapter when the book's chapter table has one. A heading whose chapter
 * already has a block takes that block over; the chapter blocks no heading
 * takes over are deleted together with their index records.
 */
module NoteMerger {
  import opened Wrappers
  import opened Domain
  import opened PyDict
  import opened RemoteStore
  import opened Reconciler
  import opened NoteOrder

  /** Chapter uids never decrease along `s`, as in any key-sorted stream. */
  predicate UidSorted(s: seq<Content>) {
    forall i, j :: 0 <= i < j < |s| ==> Uid(s[i]) <= Uid(s[j])
  }

  /** The chapter uids of `s` in order of first appearance: the key order of the grouping dictionary. */
  function DistinctUids(s: seq<Content>): (keys: seq<int>)
    ensures |keys| <= |s|
  {
    if s == [] then []
    else
      var n := |s| - 1;
      var keys := DistinctUids(s[..n]);
      if Uid(s[n]) in keys then keys else keys + [Uid(s[n])]
  }

  /** Each uid of `s` is listed once, and nothing else is. */
  lemma {:induction false} DistinctUidsSound(s: seq<Content>)
    ensures Distinct(DistinctUids(s))
    ensures forall k :: k in DistinctUids(s) <==> exists c :: c in s && Uid(c) == k
  {
    if s != [] {
      var n := |s| - 1;
      DistinctUidsSound(s[..n]);
      var keys := DistinctUids(s[..n]);
      assert forall c :: c in s <==> c in s[..n] || c == s[n] by {
        assert s == s[..n] + [s[n]];
      }
      if Uid(s[n]) !in keys {
        DistinctSnoc(keys, Uid(s[n]));
      }
    }
  }

  /** The records of `s` in chapter `k`, in their order: one value of the grouping dictionary. */
  function Group(s: seq<Content>, k: int): (g: seq<Content>)
    ensures |g| <= |s|
  {
    if s == [] then []
    else
      var n := |s| - 1;
      Group(s[..n], k) + if Uid(s[n]) == k then [s[n]] else []
  }

  /** A group holds records of `s` in chapter `k` only. */
  lemma {:induction false} GroupMembers(s: seq<Content>, k: int)
    ensures forall c :: c in Group(s, k) ==> c in s && Uid(c) == k
  {
    if s != [] {
      var n := |s| - 1;
      GroupMembers(s[..n], k);
      assert s == s[..n] + [s[n]];
    }
  }

  /** The chapter record shown for chapter `k`, holding the chapter's existing block if it has one. */
  function Heading(table: map<int, Content>, index: map<int, Id>, k: int): (h: Content)
    requires k in table
    ensures h == table[k].(blockId := h.blockId)
    ensures h.blockId == if k in index then Some(index[k]) else table[k].blockId
  {
    if k in index then table[k].(blockId := Some(index[k])) else table[k]
  }

  /** The stream the second loop of `sort_notes` builds over the dictionary keys `keys`. */
  function Emit(keys: seq<int>, s: seq<Content>, table: map<int, Content>, index: map<int, Id>): seq<Content> {
    if keys == [] then []
    else
      var n := |keys| - 1;
      var k := keys[n];
      Emit(keys[..n], s, table, index) + (if k in table then [Heading(table, index, k)] else []) + Group(s, k)
  }

  /** Record `i` opens a run of its chapter. */
  predicate StartsChapter(s: seq<Content>, i: nat)
    requires i < |s|
  {
    i == 0 || Uid(s[i - 1]) != Uid(s[i])
  }

  /**
   * An independent reading of the merge: walk the sorted records and put a
   * chapter's heading right before the record that opens the chapter's run.
   */
  function Interleave(s: seq<Content>, table: map<int, Content>, index: map<int, Id>): seq<Content> {
    if s == [] then []
    else
      var n := |s| - 1;
      var x := s[n];
      Interleave(s[..n], table, index)
        + (if StartsChapter(s, n) && Uid(x) in table then [Heading(table, index, Uid(x))] else [])
        + [x]
  }

  // ---------------------------------------------------------------------------
  // Grouping a sorted stream cuts it exactly where the chapter changes

  lemma GroupSnoc(s: seq<Content>, x: Content, k: int)
    ensures Group(s + [x], k) == Group(s, k) + if Uid(x) == k then [x] else []
  {
    assert (s + [x])[..|s|] == s;
  }

  lemma {:induction false} GroupNone(s: seq<Content>, k: int)
    requires forall c :: c in s ==> Uid(c) != k
    ensures Group(s, k) == []
  {
    if s != [] {
      var n := |s| - 1;
      assert s[n] in s;
      assert forall c :: c in s[..n] ==> c in s;
      GroupNone(s[..n], k);
    }
  }

  /** A record of a chapter not among `keys` changes nothing `keys` emits. */
  lemma {:induction false} EmitFrame(keys: seq<int>, s: seq<Content>, x: Content, table: map<int, Content>, index: map<int, Id>)
    requires Uid(x) !in keys
    ensures Emit(keys, s + [x], table, index) == Emit(keys, s, table, index)
  {
    if keys != [] {
      var n := |keys| - 1;
      assert forall k :: k in keys[..n] ==> k in keys;
      EmitFrame(keys[..n], s, x, table, index);
      GroupSnoc(s, x, keys[n]);
    }
  }

  /** In a uid-sorted stream the last new uid is the uid of the last record. */
  lemma {:induction false} LastUid(s: seq<Content>)
    requires s != [] && UidSorted(s)
    ensures DistinctUids(s) != [] && DistinctUids(s)[|DistinctUids(s)| - 1] == Uid(s[|s| - 1])
  {
    var n := |s| - 1;
    var keys := DistinctUids(s[..n]);
    if Uid(s[n]) in keys {
      DistinctUidsSound(s[..n]);
      var c :| c in s[..n] && Uid(c) == Uid(s[n]);
      var i :| 0 <= i < n && s[i] == c;
      assert Uid(s[i]) <= Uid(s[n - 1]) <= Uid(s[n]);
      LastUid(s[..n]);
    }
  }

  /** In a uid-sorted stream, the last record's uid is the last key and no earlier key repeats it. */
  lemma LastKeyAlone(p: seq<Content>)
    requires p != [] && UidSorted(p)
    ensures var keys := DistinctUids(p);
      keys != [] && keys[|keys| - 1] == Uid(p[|p| - 1]) && Uid(p[|p| - 1]) !in keys[..|keys| - 1]
  {
    LastUid(p);
    DistinctUidsSound(p);
    var keys := DistinctUids(p);
    var m := |keys| - 1;
    assert forall i :: 0 <= i < m ==> keys[..m][i] == keys[i];
  }

  /** A record continuing the chapter of the last record joins the last group. */
  lemma SameChapterStep(p: seq<Content>, x: Content, table: map<int, Content>, index: map<int, Id>)
    requires p != [] && UidSorted(p) && Uid(p[|p| - 1]) == Uid(x)
    ensures DistinctUids(p + [x]) == DistinctUids(p)
    ensures Emit(DistinctUids(p), p + [x], table, index) == Emit(DistinctUids(p), p, table, index) + [x]
  {
    var u := Uid(x);
    assert (p + [x])[..|p|] == p;
    assert p[|p| - 1] in p;
    LastKeyAlone(p);
    var keys := DistinctUids(p);
    var front := keys[..|keys| - 1];
    EmitFrame(front, p, x, table, index);
    GroupSnoc(p, x, u);
    EmitExtendLast(keys, p, p + [x], x, table, index);
  }

  /** Growing only the group of the last key grows the emitted stream at its end. */
  lemma EmitExtendLast(keys: seq<int>, s: seq<Content>, s': seq<Content>, x: Content, table: map<int, Content>, index: map<int, Id>)
    requires keys != []
    requires Emit(keys[..|keys| - 1], s', table, index) == Emit(keys[..|keys| - 1], s, table, index)
    requires Group(s', keys[|keys| - 1]) == Group(s, keys[|keys| - 1]) + [x]
    ensures Emit(keys, s', table, index) == Emit(keys, s, table, index) + [x]
  {
  }

  /** A record opening a new chapter adds a key, the chapter's heading and a one-record group. */
  lemma NewChapterStep(p: seq<Content>, x: Content, table: map<int, Content>, index: map<int, Id>)
    requires forall c :: c in p ==> Uid(c) != Uid(x)
    ensures DistinctUids(p + [x]) == DistinctUids(p) + [Uid(x)]
    ensures Emit(DistinctUids(p + [x]), p + [x], table, index)
      == Emit(DistinctUids(p), p, table, index) + (if Uid(x) in table then [Heading(table, index, Uid(x))] else []) + [x]
  {
    var u := Uid(x);
    var keys := DistinctUids(p);
    DistinctUidsSound(p);
    assert (p + [x])[..|p|] == p;
    GroupNone(p, u);
    GroupSnoc(p, x, u);
    assert (keys + [u])[..|keys|] == keys;
    EmitFrame(keys, p, x, table, index);
  }

  /** In a uid-sorted stream, a record opening a run has a uid no earlier record has. */
  lemma OpensNewChapter(s: seq<Content>)
    requires s != [] && UidSorted(s) && StartsChapter(s, |s| - 1)
    ensures forall c :: c in s[..|s| - 1] ==> Uid(c) != Uid(s[|s| - 1])
  {
    var n := |s| - 1;
    forall c | c in s[..n] ensures Uid(c) != Uid(s[n]) {
      var i :| 0 <= i < n && s[i] == c;
      assert Uid(s[i]) <= Uid(s[n - 1]);
    }
  }

  /** The two loops of the merge produce the interleaving of the sorted records with their headings. */
  lemma {:induction false} GroupingFollowsBoundaries(s: seq<Content>, table: map<int, Content>, index: map<int, Id>)
    requires UidSorted(s)
    ensures Emit(DistinctUids(s), s, table, index) == Interleave(s, table, index)
  {
    if s != [] {
      var n := |s| - 1;
      var p, x := s[..n], s[n];
      assert s == p + [x];
      assert UidSorted(p);
      GroupingFollowsBoundaries(p, table, index);
      var h := if StartsChapter(s, n) && Uid(x) in table then [Heading(table, index, Uid(x))] else [];
      assert Interleave(s, table, index) == Interleave(p, table, index) + h + [x];
      if !StartsChapter(s, n) {
        SameChapterStep(p, x, table, index);
      } else {
        OpensNewChapter(s);
        NewChapterStep(p, x, table, index);
      }
    }
  }

  // ---------------------------------------------------------------------------
  // What the merged stream holds

  /** The annotations of a stream, chapter records left out. */
  function Annotations(s: seq<Content>): seq<Content> {
    if s == [] then []
    else
      var n := |s| - 1;
      Annotations(s[..n]) + if IsChapterRecord(s[n]) then [] else [s[n]]
  }

  /** The chapter records of a stream. */
  function Chapters(s: seq<Content>): seq<Content> {
    if s == [] then []
    else
      var n := |s| - 1;
      Chapters(s[..n]) + if IsChapterRecord(s[n]) then [s[n]] else []
  }

  lemma {:induction false} FilterAppend(a: seq<Content>, b: seq<Content>)
    ensures Annotations(a + b) == Annotations(a) + Annotations(b)
    ensures Chapters(a + b) == Chapters(a) + Chapters(b)
  {
    if b == [] {
      assert a + b == a;
    } else {
      var n := |b| - 1;
      FilterAppend(a, b[..n]);
      assert (a + b)[..|a + b| - 1] == a + b[..n];
      assert (a + b)[|a + b| - 1] == b[n];
    }
  }

  /** Highlights and reviews only: each carries a `bookmarkId` or a `reviewId`. */
  predicate AllAnnotations(s: seq<Content>) {
    forall i :: 0 <= i < |s| ==> !IsChapterRecord(s[i])
  }

  /** A chapter table holds chapter records only. */
  predicate ChapterTable(table: map<int, Content>) {
    forall k :: k in table ==> IsChapterRecord(table[k])
  }

  /** The headings of the chapters among `keys` that the table has, in key order. */
  function Headings(keys: seq<int>, table: map<int, Content>, index: map<int, Id>): seq<Content> {
    if keys == [] then []
    else
      var n := |keys| - 1;
      Headings(keys[..n], table, index) + if keys[n] in table then [Heading(table, index, keys[n])] else []
  }

  lemma AnnotationsStep(prev: seq<Content>, h: seq<Content>, x: Content)
    requires |h| <= 1 && (forall c :: c in h ==> IsChapterRecord(c)) && !IsChapterRecord(x)
    ensures Annotations(prev + h + [x]) == Annotations(prev) + [x]
  {
    FilterAppend(prev, h);
    FilterAppend(prev + h, [x]);
    if h != [] {
      assert h[0] in h;
      assert h[..0] == [];
    }
    assert [x][..0] == [];
  }

  /** Merging drops no annotation, adds none and keeps their sorted order. */
  lemma {:induction false} InterleaveKeepsAnnotations(s: seq<Content>, table: map<int, Content>, index: map<int, Id>)
    requires AllAnnotations(s) && ChapterTable(table)
    ensures Annotations(Interleave(s, table, index)) == s
  {
    if s != [] {
      var n := |s| - 1;
      var p, x := s[..n], s[n];
      assert s == p + [x];
      assert AllAnnotations(p);
      InterleaveKeepsAnnotations(p, table, index);
      var h := if StartsChapter(s, n) && Uid(x) in table then [Heading(table, index, Uid(x))] else [];
      assert Interleave(s, table, index) == Interleave(p, table, index) + h + [x];
      assert !IsChapterRecord(x);
      if h != [] {
        HeadingIsChapter(table, index, Uid(x));
      }
      AnnotationsStep(Interleave(p, table, index), h, x);
    }
  }

  lemma HeadingIsChapter(table: map<int, Content>, index: map<int, Id>, k: int)
    requires ChapterTable(table) && k in table
    ensures IsChapterRecord(Heading(table, index, k))
  {
    assert IsChapterRecord(table[k]);
  }

  lemma {:induction false} NoChapters(g: seq<Content>)
    requires forall c :: c in g ==> !IsChapterRecord(c)
    ensures Chapters(g) == []
  {
    if g != [] {
      var n := |g| - 1;
      assert g[n] in g;
      assert forall c :: c in g[..n] ==> c in g;
      NoChapters(g[..n]);
    }
  }

  lemma {:induction false} EmitChapters(keys: seq<int>, s: seq<Content>, table: map<int, Content>, index: map<int, Id>)
    requires AllAnnotations(s) && ChapterTable(table)
    ensures Chapters(Emit(keys, s, table, index)) == Headings(keys, table, index)
  {
    if keys != [] {
      var n := |keys| - 1;
      var k := keys[n];
      EmitChapters(keys[..n], s, table, index);
      var h := if k in table then [Heading(table, index, k)] else [];
      FilterAppend(Emit(keys[..n], s, table, index), h);
      FilterAppend(Emit(keys[..n], s, table, index) + h, Group(s, k));
      GroupMembers(s, k);
      forall c | c in Group(s, k) ensures !IsChapterRecord(c) {
        var i :| 0 <= i < |s| && s[i] == c;
      }
      NoChapters(Group(s, k));
      if h != [] {
        assert [h[0]][..0] == [];
      }
    }
  }

  /** In a uid-sorted stream the chapters appear in strictly increasing uid order. */
  lemma {:induction false} DistinctUidsIncrease(s: seq<Content>)
    requires UidSorted(s)
    ensures forall i, j :: 0 <= i < j < |DistinctUids(s)| ==> DistinctUids(s)[i] < DistinctUids(s)[j]
  {
    if s != [] {
      var n := |s| - 1;
      var keys := DistinctUids(s[..n]);
      assert UidSorted(s[..n]);
      DistinctUidsIncrease(s[..n]);
      DistinctUidsSound(s[..n]);
      if Uid(s[n]) !in keys {
        forall k | k in keys ensures k < Uid(s[n]) {
          var c :| c in s[..n] && Uid(c) == k;
          var i :| 0 <= i < n && s[i] == c;
          assert Uid(s[i]) <= Uid(s[n]);
        }
        var all := keys + [Uid(s[n])];
        assert DistinctUids(s) == all;
        forall i, j | 0 <= i < j < |all| ensures all[i] < all[j] {
          if j == |keys| {
            assert keys[i] in keys;
          }
        }
      }
    }
  }

  /**
   * The merged stream holds one heading per chapter that has annotations and
   * an entry in the table, in increasing chapter order, and no other chapter
   * record.
   */
  lemma InterleaveHeadings(s: seq<Content>, table: map<int, Content>, index: map<int, Id>)
    requires UidSorted(s) && AllAnnotations(s) && ChapterTable(table)
    ensures Chapters(Interleave(s, table, index)) == Headings(DistinctUids(s), table, index)
    ensures forall i, j :: 0 <= i < j < |DistinctUids(s)| ==> DistinctUids(s)[i] < DistinctUids(s)[j]
  {
    GroupingFollowsBoundaries(s, table, index);
    EmitChapters(DistinctUids(s), s, table, index);
    DistinctUidsIncrease(s);
  }

  /** Every chapter record of `out` is the heading of the annotation right after it. */
  predicate HeadsItsChapter(out: seq<Content>, s: seq<Content>, table: map<int, Content>, index: map<int, Id>) {
    forall i :: 0 <= i < |out| && IsChapterRecord(out[i]) ==>
      && i + 1 < |out| && out[i + 1] in s && Uid(out[i + 1]) in table
      && out[i] == Heading(table, index, Uid(out[i + 1]))
  }

  /** No heading is left without an annotation of its chapter right after it. */
  lemma {:induction false} HeadingPrecedesChapter(s: seq<Content>, table: map<int, Content>, index: map<int, Id>)
    requires AllAnnotations(s)
    ensures HeadsItsChapter(Interleave(s, table, index), s, table, index)
  {
    if s != [] {
      var n := |s| - 1;
      var x := s[n];
      HeadingPrecedesChapter(s[..n], table, index);
      var prev := Interleave(s[..n], table, index);
      var h := if StartsChapter(s, n) && Uid(x) in table then [Heading(table, index, Uid(x))] else [];
      var out := prev + h + [x];
      assert x in s;
      forall c | c in s[..n] ensures c in s {
      }
      forall i | 0 <= i < |out| && IsChapterRecord(out[i])
        ensures i + 1 < |out| && out[i + 1] in s && Uid(out[i + 1]) in table
        ensures out[i] == Heading(table, index, Uid(out[i + 1]))
      {
        if i < |prev| {
          assert out[i] == prev[i];
          if i + 1 < |prev| {
            assert out[i + 1] == prev[i + 1];
          }
        }
      }
    }
  }

  // ---------------------------------------------------------------------------
  // Chapter blocks that no heading takes over

  /** The chapters among `keys` that the table has: the keys popped from the chapter index. */
  function Visited(keys: seq<int>, table: map<int, Content>): set<int> {
    set k | k in keys && k in table
  }

  /** The chapter blocks left in the index once every heading has taken its block, in index order. */
  ghost function ChapterOrphans(records: seq<IndexRecord<int>>, list: seq<Content>, table: map<int, Content>): (blocks: seq<Id>)
    ensures forall i :: 0 <= i < |blocks| ==> blocks[i] in RecordIndex(records)
  {
    var index := Without(BlockIndex(records), Visited(DistinctUids(list), table));
    assert Recorded(index, RecordIndex(records)) by {
      assert Recorded(Indexes(records).0, Indexes(records).1);
    }
    Values(index)
  }

  /** Chapter `k` gets no heading in this run: the table lacks it or no annotation is in it. */
  predicate Unused(k: int, list: seq<Content>, table: map<int, Content>) {
    k !in table || forall c :: c in list ==> Uid(c) != k
  }

  lemma VisitedIffUsed(list: seq<Content>, table: map<int, Content>, k: int)
    ensures k in Visited(DistinctUids(list), table) <==> !Unused(k, list, table)
  {
    DistinctUidsSound(list);
    if k in table && exists c :: c in list && Uid(c) == k {
      assert k in DistinctUids(list);
    }
  }

  /** The block of a chapter that gets no heading is deleted. */
  lemma UnusedChapterDeleted(records: seq<IndexRecord<int>>, list: seq<Content>, table: map<int, Content>, k: int)
    requires k in BlockIndex(records).entries && Unused(k, list, table)
    ensures BlockIndex(records).entries[k] in ChapterOrphans(records, list, table)
  {
    var gone := Visited(DistinctUids(list), table);
    var d := BlockIndex(records);
    VisitedIffUsed(list, table, k);
    ValuesWithout(d, gone, d.entries[k]);
  }

  /**
   * The block of a chapter that gets a heading is kept (the heading takes it
   * over), unless another chapter's record names the same block.
   */
  lemma UsedChapterKept(records: seq<IndexRecord<int>>, list: seq<Content>, table: map<int, Content>, k: int)
    requires k in BlockIndex(records).entries && !Unused(k, list, table)
    requires forall k' :: k' in BlockIndex(records).entries && k' != k ==> BlockIndex(records).entries[k'] != BlockIndex(records).entries[k]
    ensures BlockIndex(records).entries[k] !in ChapterOrphans(records, list, table)
  {
    var gone := Visited(DistinctUids(list), table);
    var d := BlockIndex(records);
    VisitedIffUsed(list, table, k);
    forall k' | k' in d.entries && k' !in gone ensures d.entries[k'] != d.entries[k] {
      assert k' != k;
    }
    ValuesWithout(d, gone, d.entries[k]);
  }

  // ---------------------------------------------------------------------------
  // sort_notes

  /**
   * `chapter` is the chapter table of the book (None when the reading service
   * has none), `records` the rows of the chapter index database for the book
   * page, `bookmarkList` the highlights followed by the reviews.
   */
  method SortNotes(store: Store, chapter: Option<map<int, Content>>, records: seq<IndexRecord<int>>, bookmarkList: Option<seq<Content>>)
      returns (notes: seq<Content>)
    requires chapter.Some? && bookmarkList.Some? ==> AllParse(bookmarkList.value)
    modifies store
    ensures chapter.None? ==> notes == bookmarkList.GetOr([]) && store.log == old(store.log)
    ensures chapter.Some? && bookmarkList.None? ==> notes == [] && store.log == old(store.log)
    ensures chapter.Some? && bookmarkList.Some? ==>
      && notes == Interleave(StableSort(bookmarkList.value), chapter.value, BlockIndex(records).entries)
      && store.log == old(store.log) + DeleteCalls(ChapterOrphans(records, bookmarkList.value, chapter.value), RecordIndex(records))
    ensures store.pages == old(store.pages) && store.nextId == old(store.nextId)
  {
    notes := [];
    if chapter.Some? {
      if bookmarkList.Some? {
        var list, table := bookmarkList.value, chapter.value;
        var indexes := Indexes(records);
        var dict1, dict2 := indexes.0, indexes.1;
        var sorted := StableSort(list);
        var d := GroupByChapter(sorted);
        notes, dict1 := PlaceHeadings(d, sorted, table, dict1);
        MergeIsInterleave(list, table, indexes.0.entries);
        SameChapters(list, table);
        DeleteOrphans(store, dict1, dict2);
      }
    } else if bookmarkList.Some? {
      notes := bookmarkList.value;
    }
  }

  /** Sorting changes no chapter that gets a heading. */
  lemma SameChapters(list: seq<Content>, table: map<int, Content>)
    requires AllParse(list)
    ensures Visited(DistinctUids(StableSort(list)), table) == Visited(DistinctUids(list), table)
  {
    var sorted := StableSort(list);
    StableSortMembers(list);
    DistinctUidsSound(list);
    DistinctUidsSound(sorted);
    forall k | k in DistinctUids(sorted) ensures k in DistinctUids(list) {
      var c :| c in sorted && Uid(c) == k;
      assert c in list;
    }
    forall k | k in DistinctUids(list) ensures k in DistinctUids(sorted) {
      var c :| c in list && Uid(c) == k;
      assert c in sorted;
    }
  }

  /** `d` is the grouping dictionary of `s`. */
  ghost predicate Grouped(d: Dict<int, seq<Content>>, s: seq<Content>) {
    && Valid(d) && d.keys == DistinctUids(s)
    && forall k :: k in d.entries ==> d.entries[k] == Group(s, k)
  }

  /** The first loop of `sort_notes`: records grouped by chapter uid, keys in order of first appearance. */
  method GroupByChapter(s: seq<Content>) returns (d: Dict<int, seq<Content>>)
    ensures Grouped(d, s)
  {
    d := Empty();
    var i := 0;
    while i < |s|
      invariant 0 <= i <= |s|
      invariant Grouped(d, s[..i])
    {
      var uid := Uid(s[i]);
      ghost var d0 := d;
      if uid !in d.entries {
        d := Put(d, uid, []);
      }
      ghost var d1 := d;
      CreatedGroup(d0, d1, s[..i], uid);
      d := Put(d, uid, d.entries[uid] + [s[i]]);
      GroupedStep(d0, d1, d, s, i);
      i := i + 1;
    }
    assert s[..i] == s;
  }

  /** The list of chapter `u` exists once created if missing. */
  lemma CreatedGroup(d: Dict<int, seq<Content>>, d1: Dict<int, seq<Content>>, s: seq<Content>, u: int)
    requires Grouped(d, s)
    requires d1 == if u !in d.entries then Put(d, u, []) else d
    ensures Valid(d1) && u in d1.entries
  {
  }

  /** One record more: its chapter's list is created if missing, then the record appended. */
  lemma GroupedStep(d: Dict<int, seq<Content>>, d1: Dict<int, seq<Content>>, d2: Dict<int, seq<Content>>, s: seq<Content>, i: nat)
    requires i < |s| && Grouped(d, s[..i])
    requires d1 == if Uid(s[i]) !in d.entries then Put(d, Uid(s[i]), []) else d
    requires Uid(s[i]) in d1.entries && d2 == Put(d1, Uid(s[i]), d1.entries[Uid(s[i])] + [s[i]])
    ensures Grouped(d2, s[..i + 1])
  {
    var u, x, t := Uid(s[i]), s[i], s[..i];
    assert s[..i + 1] == t + [x];
    assert (t + [x])[..|t|] == t;
    if u !in d.entries {
      DistinctUidsSound(t);
      GroupNone(t, u);
    }
    assert d1.entries[u] == Group(t, u);
    forall k | k in d2.entries ensures d2.entries[k] == Group(t + [x], k) {
      GroupSnoc(t, x, k);
    }
  }

  /**
   * The second loop of `sort_notes`: for each chapter in key order, its
   * heading (taking over the chapter's block, which is popped from `index`)
   * when the table has the chapter, then its records.
   */
  method PlaceHeadings(d: Dict<int, seq<Content>>, s: seq<Content>, table: map<int, Content>, index: Dict<int, Id>)
      returns (notes: seq<Content>, rest: Dict<int, Id>)
    requires Grouped(d, s) && Valid(index)
    ensures notes == Emit(d.keys, s, table, index.entries)
    ensures Valid(rest) && rest == Without(index, Visited(d.keys, table))
  {
    notes := [];
    rest := index;
    var j := 0;
    WithoutNothing(index);
    assert Visited(d.keys[..0], table) == {};
    while j < |d.keys|
      invariant 0 <= j <= |d.keys|
      invariant notes == Emit(d.keys[..j], s, table, index.entries)
      invariant Valid(rest) && rest == Without(index, Visited(d.keys[..j], table))
    {
      notes, rest := PlaceKey(d, s, table, index, j, notes, rest);
      j := j + 1;
    }
    assert d.keys[..j] == d.keys;
  }

  /** One turn of the second loop: the heading of key `j`, if any, then the key's records. */
  method PlaceKey(d: Dict<int, seq<Content>>, s: seq<Content>, table: map<int, Content>, index: Dict<int, Id>,
                  j: nat, notes: seq<Content>, rest: Dict<int, Id>) returns (notes': seq<Content>, rest': Dict<int, Id>)
    requires Grouped(d, s) && Valid(index) && j < |d.keys|
    requires notes == Emit(d.keys[..j], s, table, index.entries)
    requires rest == Without(index, Visited(d.keys[..j], table))
    ensures notes' == Emit(d.keys[..j + 1], s, table, index.entries)
    ensures Valid(rest') && rest' == Without(index, Visited(d.keys[..j + 1], table))
  {
    var key := d.keys[j];
    var heading;
    heading, rest' := TakeHeading(table, key, rest);
    notes' := notes + heading + d.entries[key];
    PlaceStep(d, s, table, index, j, notes, rest, heading, notes', rest');
  }

  /**
   * The chapter record of `key`, if the book has that chapter, taking over the
   * block recorded for it, which leaves the dictionary.
   */
  method TakeHeading(table: map<int, Content>, key: int, rest: Dict<int, Id>) returns (heading: seq<Content>, rest': Dict<int, Id>)
    requires Valid(rest)
    ensures key !in table ==> heading == [] && rest' == rest
    ensures key in table && key !in rest.entries ==> heading == [table[key]] && rest' == rest
    ensures key in table && key in rest.entries ==>
      heading == [table[key].(blockId := Some(rest.entries[key]))] && rest' == Pop(rest, key)
  {
    heading, rest' := [], rest;
    if key in table {
      var chapterRecord := table[key];
      if key in rest.entries {
        chapterRecord := chapterRecord.(blockId := Some(rest.entries[key]));
        rest' := Pop(rest, key);
      }
      heading := [chapterRecord];
    }
  }

  /** One key of the second loop: the heading (taking over the block popped from `rest`) and the group. */
  lemma PlaceStep(d: Dict<int, seq<Content>>, s: seq<Content>, table: map<int, Content>, index: Dict<int, Id>,
                  j: nat, notes: seq<Content>, rest: Dict<int, Id>, heading: seq<Content>, notes': seq<Content>, rest': Dict<int, Id>)
    requires Grouped(d, s) && Valid(index) && j < |d.keys|
    requires notes == Emit(d.keys[..j], s, table, index.entries)
    requires rest == Without(index, Visited(d.keys[..j], table))
    requires d.keys[j] !in table ==> heading == [] && rest' == rest
    requires d.keys[j] in table && d.keys[j] !in rest.entries ==> heading == [table[d.keys[j]]] && rest' == rest
    requires d.keys[j] in table && d.keys[j] in rest.entries ==>
      heading == [table[d.keys[j]].(blockId := Some(rest.entries[d.keys[j]]))] && rest' == Pop(rest, d.keys[j])
    requires d.keys[j] in d.entries && notes' == notes + heading + d.entries[d.keys[j]]
    ensures notes' == Emit(d.keys[..j + 1], s, table, index.entries)
    ensures Valid(rest') && rest' == Without(index, Visited(d.keys[..j + 1], table))
  {
    var key := d.keys[j];
    RestStep(index, d.keys, j, table, rest);
    EmitStep(d.keys, j, s, table, index.entries);
    assert d.entries[key] == Group(s, key);
  }

  /** The dictionary of chapter blocks after one more key. */
  lemma RestStep(index: Dict<int, Id>, keys: seq<int>, j: nat, table: map<int, Content>, rest: Dict<int, Id>)
    requires Valid(index) && Distinct(keys) && j < |keys|
    requires rest == Without(index, Visited(keys[..j], table))
    ensures keys[j] in rest.entries <==> keys[j] in index.entries
    ensures keys[j] in rest.entries ==> rest.entries[keys[j]] == index.entries[keys[j]]
    ensures Valid(rest)
    ensures (if keys[j] in table && keys[j] in rest.entries then Pop(rest, keys[j]) else rest)
      == Without(index, Visited(keys[..j + 1], table))
  {
    var key := keys[j];
    var gone := Visited(keys[..j], table);
    VisitedStep(keys, j, table);
    if key in table {
      if key in rest.entries {
        PopWithout(index, gone, key);
      } else {
        WithoutAbsent(index, gone, key);
      }
    }
  }

  lemma EmitStep(keys: seq<int>, j: nat, s: seq<Content>, table: map<int, Content>, index: map<int, Id>)
    requires j < |keys|
    ensures Emit(keys[..j + 1], s, table, index)
      == Emit(keys[..j], s, table, index) + (if keys[j] in table then [Heading(table, index, keys[j])] else []) + Group(s, keys[j])
  {
    assert keys[..j + 1][..j] == keys[..j];
  }

  lemma VisitedStep(keys: seq<int>, j: nat, table: map<int, Content>)
    requires j < |keys| && Distinct(keys)
    ensures keys[j] !in Visited(keys[..j], table)
    ensures keys[j] in table ==> Visited(keys[..j + 1], table) == Visited(keys[..j], table) + {keys[j]}
    ensures keys[j] !in table ==> Visited(keys[..j + 1], table) == Visited(keys[..j], table)
    ensures keys[..j + 1][..j] == keys[..j]
  {
    assert keys[..j + 1] == keys[..j] + [keys[j]];
    assert forall i :: 0 <= i < j ==> keys[..j][i] != keys[j];
  }

  /** The merge of the stably sorted records is their interleaving with the headings. */
  lemma MergeIsInterleave(list: seq<Content>, table: map<int, Content>, index: map<int, Id>)
    requires AllParse(list)
    ensures Emit(DistinctUids(StableSort(list)), StableSort(list), table, index) == Interleave(StableSort(list), table, index)
  {
    var sorted := StableSort(list);
    StableSortSorted(list);
    assert UidSorted(sorted) by {
      forall i, j | 0 <= i < j < |sorted| ensures Uid(sorted[i]) <= Uid(sorted[j]) {
        assert KeyLe(KeyOf(sorted[i]), KeyOf(sorted[j]));
      }
    }
    GroupingFollowsBoundaries(sorted, table, index);
  }
}
