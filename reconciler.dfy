/**
 * Matching the index records already on the workspace side against the
 * freshly fetched highlights or reviews of a book: each fetched item takes
 * over the block of the record with its external id, and every block left
 * without an item is deleted together with its index record.
 */
module Reconciler {
  import opened Wrappers
  import opened Domain
  import opened PyDict
  import opened RemoteStore

  /** A row of an index database: its own page id, the external id it indexes, and the block showing it. */
  datatype IndexRecord<K> = IndexRecord(id: Id, key: K, blockId: Id)

  /**
   * External id to block id, built over the records in order: a later record
   * with the same external id overwrites the block id and keeps the position.
   */
  function BlockIndex<K(!new)>(records: seq<IndexRecord<K>>): (d: Dict<K, Id>)
    ensures Valid(d)
  {
    if records == [] then Empty()
    else
      var last := records[|records| - 1];
      Put(BlockIndex(records[..|records| - 1]), last.key, last.blockId)
  }

  /** Every record's external id is a key, and every entry is the block of some record with that key. */
  lemma {:induction false} BlockIndexSound<K(!new)>(records: seq<IndexRecord<K>>)
    ensures forall r :: r in records ==> r.key in BlockIndex(records).entries
    ensures forall k :: k in BlockIndex(records).entries ==>
      exists r :: r in records && r.key == k && r.blockId == BlockIndex(records).entries[k]
  {
    if records != [] {
      var n := |records| - 1;
      var init, last := records[..n], records[n];
      BlockIndexSound(init);
      var d, d0 := BlockIndex(records), BlockIndex(init);
      assert d.entries == d0.entries[last.key := last.blockId];
      assert forall r :: r in records ==> r in init || r == last;
      forall k | k in d.entries ensures exists r :: r in records && r.key == k && r.blockId == d.entries[k] {
        if k == last.key {
          assert last in records;
        } else {
          var r :| r in init && r.key == k && r.blockId == d0.entries[k];
          assert r in records;
        }
      }
    }
  }

  /** Block id to the id of its index record; a later record overwrites. */
  function RecordIndex<K>(records: seq<IndexRecord<K>>): (m: map<Id, Id>)
    ensures forall r :: r in records ==> r.blockId in m
  {
    if records == [] then map[]
    else
      var last := records[|records| - 1];
      assert forall r :: r in records ==> r in records[..|records| - 1] || r == last;
      RecordIndex(records[..|records| - 1])[last.blockId := last.id]
  }

  /** Every entry of `dict2` maps a block to the id of an index record showing that block. */
  lemma {:induction false} RecordIndexSound<K>(records: seq<IndexRecord<K>>)
    ensures forall b :: b in RecordIndex(records) ==>
      exists r :: r in records && r.blockId == b && RecordIndex(records)[b] == r.id
  {
    if records != [] {
      var n := |records| - 1;
      var init, last := records[..n], records[n];
      RecordIndexSound(init);
      var m, m0 := RecordIndex(records), RecordIndex(init);
      assert m == m0[last.blockId := last.id];
      forall b | b in m ensures exists r :: r in records && r.blockId == b && m[b] == r.id {
        if b == last.blockId {
          assert last in records;
        } else {
          var r :| r in init && r.blockId == b && m0[b] == r.id;
          assert r in records;
        }
      }
    }
  }

  /** For blocks shown by several records, the last of them wins, as in the dict comprehension. */
  lemma {:induction false} RecordOfLastRecord<K>(records: seq<IndexRecord<K>>, i: nat)
    requires i < |records|
    requires forall q :: i < q < |records| ==> records[q].blockId != records[i].blockId
    ensures records[i].blockId in RecordIndex(records)
    ensures RecordIndex(records)[records[i].blockId] == records[i].id
  {
    var n := |records| - 1;
    var init, last := records[..n], records[n];
    assert RecordIndex(records) == RecordIndex(init)[last.blockId := last.id];
    if i < n {
      assert init[i] == records[i];
      assert forall q :: i < q < |init| ==> init[q].blockId != init[i].blockId by {
        assert forall q :: i < q < |init| ==> init[q] == records[q];
      }
      RecordOfLastRecord(init, i);
    }
  }

  /** Every block of a dictionary has an index record to delete with it. */
  ghost predicate Recorded<K(!new)>(d: Dict<K, Id>, recordOf: map<Id, Id>) {
    forall k :: k in d.entries ==> d.entries[k] in recordOf
  }

  /** The two lookups built from the query results of an index database. */
  function Indexes<K(!new)>(records: seq<IndexRecord<K>>): (r: (Dict<K, Id>, map<Id, Id>))
    ensures r.0 == BlockIndex(records) && r.1 == RecordIndex(records)
    ensures Valid(r.0) && Recorded(r.0, r.1)
  {
    BlockIndexSound(records);
    (BlockIndex(records), RecordIndex(records))
  }

  /** For each block: delete the block, then delete its index record. */
  function DeleteCalls(blocks: seq<Id>, recordOf: map<Id, Id>): (calls: seq<Call>)
    requires forall i :: 0 <= i < |blocks| ==> blocks[i] in recordOf
    ensures |calls| == 2 * |blocks|
    ensures forall c :: c in calls ==> c.DeleteBlock?
  {
    if blocks == [] then []
    else
      var b := blocks[|blocks| - 1];
      DeleteCalls(blocks[..|blocks| - 1], recordOf) + [DeleteBlock(b), DeleteBlock(recordOf[b])]
  }

  /** Deletes every block still in `index`, in key order, each followed by its index record. */
  method DeleteOrphans<K(!new)>(store: Store, index: Dict<K, Id>, recordOf: map<Id, Id>)
    requires Valid(index) && Recorded(index, recordOf)
    modifies store
    ensures store.log == old(store.log) + DeleteCalls(Values(index), recordOf)
    ensures store.pages == old(store.pages) && store.nextId == old(store.nextId)
  {
    var blocks := Values(index);
    var i := 0;
    while i < |blocks|
      invariant 0 <= i <= |blocks|
      invariant store.log == old(store.log) + DeleteCalls(blocks[..i], recordOf)
      invariant store.pages == old(store.pages) && store.nextId == old(store.nextId)
    {
      store.Delete(blocks[i]);
      store.Delete(recordOf[blocks[i]]);
      assert blocks[..i + 1][..i] == blocks[..i];
      i := i + 1;
    }
    assert blocks[..i] == blocks;
  }

  // ---------------------------------------------------------------------------
  // Highlights and reviews

  /** Which list is being reconciled: highlights are keyed by `bookmarkId`, reviews by `reviewId`. */
  datatype NoteList = Bookmarks | Reviews

  function ExternalId(c: Content, list: NoteList): Option<string> {
    match list
    case Bookmarks => c.bookmarkId
    case Reviews => c.reviewId
  }

  /** Some item of `items` carries the external id `k`. */
  ghost predicate Carries(items: seq<Content>, list: NoteList, k: string) {
    exists j :: 0 <= j < |items| && ExternalId(items[j], list) == Some(k)
  }

  /** The external ids carried by `items`. */
  function SeenIds(items: seq<Content>, list: NoteList): (seen: set<string>)
    ensures forall v :: v in seen <==> exists j :: 0 <= j < |items| && ExternalId(items[j], list) == Some(v)
  {
    if items == [] then {}
    else
      var ext := ExternalId(items[|items| - 1], list);
      var seen := SeenIds(items[..|items| - 1], list) + if ext.Some? then {ext.value} else {};
      assert forall j :: 0 <= j < |items| - 1 ==> items[..|items| - 1][j] == items[j];
      seen
  }

  /**
   * Item `i` after matching: it takes the block of its external id when the
   * index has that id and no earlier item carries the same id (the entry is
   * consumed by the first); otherwise it is unchanged.
   */
  ghost function Matched(fetched: seq<Content>, list: NoteList, index: map<string, Id>, i: nat): Content
    requires i < |fetched|
  {
    var ext := ExternalId(fetched[i], list);
    if ext.Some? && ext.value in index && (forall j :: 0 <= j < i ==> ExternalId(fetched[j], list) != ext)
    then fetched[i].(blockId := Some(index[ext.value]))
    else fetched[i]
  }

  /** The blocks whose external id no fetched item carries, in key order. */
  ghost function Orphans(records: seq<IndexRecord<string>>, fetched: seq<Content>, list: NoteList): (blocks: seq<Id>)
    ensures forall i :: 0 <= i < |blocks| ==> blocks[i] in RecordIndex(records)
  {
    var index := Without(BlockIndex(records), SeenIds(fetched, list));
    assert Recorded(index, RecordIndex(records)) by {
      assert Recorded(Indexes(records).0, Indexes(records).1);
    }
    Values(index)
  }

  /**
   * One step of the matching loop: the entry of item `i` is still in the
   * dictionary exactly when the item is matched, and consuming it (or not)
   * keeps the dictionary equal to the original minus the ids seen so far.
   */
  lemma ConsumeStep(original: Dict<string, Id>, fetched: seq<Content>, list: NoteList, i: nat)
    requires Valid(original) && i < |fetched|
    ensures var index := Without(original, SeenIds(fetched[..i], list));
      var ext := ExternalId(fetched[i], list);
      var hit := ext.Some? && ext.value in index.entries;
      && (hit ==> Matched(fetched, list, original.entries, i) == fetched[i].(blockId := Some(index.entries[ext.value])))
      && (!hit ==> Matched(fetched, list, original.entries, i) == fetched[i])
      && Without(original, SeenIds(fetched[..i + 1], list)) == if hit then Pop(index, ext.value) else index
  {
    var seen := SeenIds(fetched[..i], list);
    var ext := ExternalId(fetched[i], list);
    assert fetched[..i + 1][..i] == fetched[..i];
    assert SeenIds(fetched[..i + 1], list) == seen + if ext.Some? then {ext.value} else {};
    if ext.Some? {
      assert ext.value !in seen <==> forall j :: 0 <= j < i ==> ExternalId(fetched[j], list) != ext by {
        assert forall j :: 0 <= j < i ==> fetched[..i][j] == fetched[j];
      }
      if ext.value in original.entries && ext.value !in seen {
        PopWithout(original, seen, ext.value);
      } else {
        WithoutAbsent(original, seen, ext.value);
      }
    } else {
      assert seen + {} == seen;
    }
  }

  /**
   * Fetches of one list of a book (`get_bookmark_list` / `get_review_list`):
   * `records` are the index records of the book, `fetched` the items the
   * reading service returned.
   */
  method Reconcile(store: Store, list: NoteList, records: seq<IndexRecord<string>>, fetched: seq<Content>)
      returns (items: seq<Content>)
    modifies store
    ensures |items| == |fetched|
    ensures forall i :: 0 <= i < |fetched| ==> items[i] == Matched(fetched, list, BlockIndex(records).entries, i)
    ensures store.log == old(store.log) + DeleteCalls(Orphans(records, fetched, list), RecordIndex(records))
    ensures store.pages == old(store.pages) && store.nextId == old(store.nextId)
  {
    var indexes := Indexes(records);
    var index, recordOf := indexes.0, indexes.1;
    items, index := MatchAll(list, index, fetched);
    DeleteOrphans(store, index, recordOf);
  }

  /** The matching loop: each item in turn claims the block of its external id. */
  method MatchAll(list: NoteList, original: Dict<string, Id>, fetched: seq<Content>) returns (items: seq<Content>, index: Dict<string, Id>)
    requires Valid(original)
    ensures |items| == |fetched|
    ensures forall i :: 0 <= i < |fetched| ==> items[i] == Matched(fetched, list, original.entries, i)
    ensures Valid(index) && index == Without(original, SeenIds(fetched, list))
  {
    index := original;
    items := fetched;
    var i := 0;
    WithoutNothing(original);
    assert SeenIds(fetched[..0], list) == {};
    while i < |items|
      invariant 0 <= i <= |items| == |fetched|
      invariant index == Without(original, SeenIds(fetched[..i], list))
      invariant forall j :: 0 <= j < i ==> items[j] == Matched(fetched, list, original.entries, j)
      invariant forall j :: i <= j < |items| ==> items[j] == fetched[j]
    {
      ghost var items0, index0 := items, index;
      var ext := ExternalId(items[i], list);
      var item;
      item, index := Claim(items[i], ext, index);
      items := items[i := item];
      MatchStep(original, fetched, list, i, items0, index0, ext, items, index);
      i := i + 1;
    }
    assert fetched[..i] == fetched;
  }

  /** An item whose external id is still in the dictionary takes over its block, which leaves the dictionary. */
  method Claim(item: Content, ext: Option<string>, index: Dict<string, Id>) returns (item': Content, index': Dict<string, Id>)
    requires Valid(index)
    ensures ext.Some? && ext.value in index.entries ==>
      item' == item.(blockId := Some(index.entries[ext.value])) && index' == Pop(index, ext.value)
    ensures !(ext.Some? && ext.value in index.entries) ==> item' == item && index' == index
  {
    item', index' := item, index;
    if ext.Some? && ext.value in index.entries {
      item' := item.(blockId := Some(index.entries[ext.value]));
      index' := Pop(index, ext.value);
    }
  }

  /** One item of the matching loop, with the state before (`items`, `index`) and after (`items'`, `index'`). */
  lemma MatchStep(original: Dict<string, Id>, fetched: seq<Content>, list: NoteList, i: nat,
                  items: seq<Content>, index: Dict<string, Id>, ext: Option<string>, items': seq<Content>, index': Dict<string, Id>)
    requires Valid(original) && i < |fetched| == |items|
    requires index == Without(original, SeenIds(fetched[..i], list))
    requires forall j :: 0 <= j < i ==> items[j] == Matched(fetched, list, original.entries, j)
    requires forall j :: i <= j < |items| ==> items[j] == fetched[j]
    requires ext == ExternalId(items[i], list)
    requires ext.Some? && ext.value in index.entries ==>
      items' == items[i := items[i].(blockId := Some(index.entries[ext.value]))] && index' == Pop(index, ext.value)
    requires !(ext.Some? && ext.value in index.entries) ==> items' == items && index' == index
    ensures |items'| == |fetched|
    ensures index' == Without(original, SeenIds(fetched[..i + 1], list))
    ensures forall j :: 0 <= j < i + 1 ==> items'[j] == Matched(fetched, list, original.entries, j)
    ensures forall j :: i + 1 <= j < |items'| ==> items'[j] == fetched[j]
  {
    ConsumeStep(original, fetched, list, i);
    assert items[i] == fetched[i];
  }

  // ---------------------------------------------------------------------------
  // Properties of the matching

  /**
   * A block is deleted exactly when the index maps to it an external id that
   * no fetched item carries.
   */
  lemma OrphansAreUnmatched(records: seq<IndexRecord<string>>, fetched: seq<Content>, list: NoteList, b: Id)
    ensures var index := BlockIndex(records).entries;
      b in Orphans(records, fetched, list) <==>
        exists k :: k in index && index[k] == b && !Carries(fetched, list, k)
  {
    var index := BlockIndex(records).entries;
    if b in Orphans(records, fetched, list) {
      OrphanIsUnmatched(records, fetched, list, b);
    }
    forall k | k in index && index[k] == b && !Carries(fetched, list, k)
      ensures b in Orphans(records, fetched, list)
    {
      UnmatchedIsOrphan(records, fetched, list, k);
    }
  }

  lemma OrphanIsUnmatched(records: seq<IndexRecord<string>>, fetched: seq<Content>, list: NoteList, b: Id)
    requires b in Orphans(records, fetched, list)
    ensures var index := BlockIndex(records).entries;
      exists k :: k in index && index[k] == b && !Carries(fetched, list, k)
  {
    var index := BlockIndex(records);
    var seen := SeenIds(fetched, list);
    assert b in Values(Without(index, seen));
    ValuesWithout(index, seen, b);
    var k :| k in index.entries && k !in seen && index.entries[k] == b;
    Unseen(fetched, list, k);
  }

  lemma UnmatchedIsOrphan(records: seq<IndexRecord<string>>, fetched: seq<Content>, list: NoteList, k: string)
    requires k in BlockIndex(records).entries
    requires !Carries(fetched, list, k)
    ensures BlockIndex(records).entries[k] in Orphans(records, fetched, list)
  {
    var index := BlockIndex(records);
    var seen := SeenIds(fetched, list);
    Unseen(fetched, list, k);
    ValuesWithout(index, seen, index.entries[k]);
  }

  /** An id is unseen exactly when no item carries it. */
  lemma Unseen(items: seq<Content>, list: NoteList, k: string)
    ensures k in SeenIds(items, list) <==> Carries(items, list, k)
  {
    if k in SeenIds(items, list) {
      var j :| 0 <= j < |items| && ExternalId(items[j], list) == Some(k);
    }
  }

  /** No two external ids share a block. */
  ghost predicate Injective(index: map<string, Id>) {
    forall k, k' :: k in index && k' in index && k != k' ==> index[k] != index[k']
  }

  /** When blocks are not shared, a block some fetched item takes over is never deleted. */
  lemma MatchedBlocksSurvive(records: seq<IndexRecord<string>>, fetched: seq<Content>, list: NoteList, i: nat)
    requires i < |fetched| && Injective(BlockIndex(records).entries)
    requires fetched[i].blockId.None?
    ensures var item := Matched(fetched, list, BlockIndex(records).entries, i);
      item.blockId.Some? ==> item.blockId.value !in Orphans(records, fetched, list)
  {
    var item := Matched(fetched, list, BlockIndex(records).entries, i);
    if item.blockId.Some? {
      OrphansAreUnmatched(records, fetched, list, item.blockId.value);
    }
  }

  /** An external id that no later record repeats maps to the block of its record. */
  lemma {:induction false} IndexOfLastRecord<K(!new)>(records: seq<IndexRecord<K>>, i: nat)
    requires i < |records|
    requires forall q :: i < q < |records| ==> records[q].key != records[i].key
    ensures records[i].key in BlockIndex(records).entries
    ensures BlockIndex(records).entries[records[i].key] == records[i].blockId
  {
    var n := |records| - 1;
    var init, last := records[..n], records[n];
    assert BlockIndex(records).entries == BlockIndex(init).entries[last.key := last.blockId];
    if i < n {
      assert init[i] == records[i];
      assert forall q :: i < q < |init| ==> init[q].key != init[i].key by {
        assert forall q :: i < q < |init| ==> init[q] == records[q];
      }
      IndexOfLastRecord(init, i);
    }
  }

  /**
   * A second run over unchanged data: when the index holds one record per
   * fetched item, keyed by the item's external id, every item gets the block
   * of its own record ...
   */
  lemma {:induction false} RerunMatchesEveryItem(records: seq<IndexRecord<string>>, fetched: seq<Content>, list: NoteList, i: nat)
    requires |records| == |fetched| && i < |fetched|
    requires forall i :: 0 <= i < |fetched| ==> ExternalId(fetched[i], list) == Some(records[i].key)
    requires forall p, q :: 0 <= p < q < |records| ==> records[p].key != records[q].key
    ensures Matched(fetched, list, BlockIndex(records).entries, i).blockId == Some(records[i].blockId)
  {
    IndexOfLastRecord(records, i);
  }

  /** ... and nothing is deleted (here distinct ids are not even needed). */
  lemma {:induction false} RerunDeletesNothing(records: seq<IndexRecord<string>>, fetched: seq<Content>, list: NoteList)
    requires |records| == |fetched|
    requires forall i :: 0 <= i < |fetched| ==> ExternalId(fetched[i], list) == Some(records[i].key)
    ensures Orphans(records, fetched, list) == []
  {
    var index := BlockIndex(records);
    var seen := SeenIds(fetched, list);
    BlockIndexSound(records);
    forall k | k in index.entries ensures k in seen {
      var r :| r in records && r.key == k && r.blockId == index.entries[k];
      var i :| 0 <= i < |records| && records[i] == r;
      assert ExternalId(fetched[i], list) == Some(k);
    }
    WithoutAll(index, seen);
  }

  /**
   * Records {A (id "1"), B (id "2")} against the single fetched highlight "1":
   * the highlight takes over A's block, and B's block and index record are
   * deleted.
   */
  lemma TwoRecordsIndex()
    ensures BlockIndex([IndexRecord(20, "1", 10), IndexRecord(21, "2", 11)]) == Dict(["1", "2"], map["1" := 10, "2" := 11])
  {
    var records := [IndexRecord(20, "1", 10), IndexRecord(21, "2", 11)];
    assert records[..1] == [IndexRecord(20, "1", 10)];
    assert records[..1][..0] == [];
    assert BlockIndex(records[..1]) == Dict(["1"], map["1" := 10]);
  }

  lemma SecondLeft()
    ensures Without(Dict(["1", "2"], map["1" := 10, "2" := 11]), {"1"}) == Dict(["2"], map["2" := 11])
  {
    var d := Dict(["1", "2"], map["1" := 10, "2" := 11]);
    assert d.keys[..1] == ["1"];
    assert d.keys[..1][..0] == [];
    assert FilterOut(d.keys, {"1"}) == ["2"];
    assert d.entries - {"1"} == map["2" := 11];
  }

  lemma SecondOrphaned(a: Content)
    requires a.bookmarkId == Some("1")
    ensures Orphans([IndexRecord(20, "1", 10), IndexRecord(21, "2", 11)], [a], Bookmarks) == [11]
  {
    var records := [IndexRecord(20, "1", 10), IndexRecord(21, "2", 11)];
    TwoRecordsIndex();
    SecondLeft();
    OnlyFirstSeen(a);
    OrphansOfIndex(records, [a], Bookmarks);
    OnlySecondValue();
  }

  /** The orphans are the values left in the block index once the seen ids are removed. */
  lemma OrphansOfIndex(records: seq<IndexRecord<string>>, fetched: seq<Content>, list: NoteList)
    ensures Orphans(records, fetched, list) == Values(Without(BlockIndex(records), SeenIds(fetched, list)))
  {
  }

  lemma OnlySecondValue()
    ensures Values(Dict(["2"], map["2" := 11])) == [11]
  {
  }

  lemma OnlyFirstSeen(a: Content)
    requires a.bookmarkId == Some("1")
    ensures SeenIds([a], Bookmarks) == {"1"}
  {
    assert [a][..0] == [];
  }

  lemma SecondRecord()
    ensures RecordIndex([IndexRecord(20, "1", 10), IndexRecord(21, "2", 11)])[11] == 21
  {
    var records := [IndexRecord(20, "1", 10), IndexRecord(21, "2", 11)];
    assert records[..1] == [IndexRecord(20, "1", 10)];
  }

  lemma {:induction false} OneOfTwoDeleted(a: Content)
    requires a.bookmarkId == Some("1")
    ensures var records := [IndexRecord(20, "1", 10), IndexRecord(21, "2", 11)];
      && Matched([a], Bookmarks, BlockIndex(records).entries, 0) == a.(blockId := Some(10))
      && DeleteCalls(Orphans(records, [a], Bookmarks), RecordIndex(records)) == [DeleteBlock(11), DeleteBlock(21)]
  {
    TwoRecordsIndex();
    SecondOrphaned(a);
    SecondRecord();
  }
}
