/**
 * Writing the merged note stream of one book into its page. Records that
 * already have a block are left where they are and only serve as anchors;
 * runs of new records are sent in requests of at most 100 children, each
 * inserted right after the anchor in force, and every created block is then
 * recorded in the index database of its kind.
 *
 * `Plan` is the batching decided from the stream alone; `AppendBlocks` is the
 * loop that performs it against the workspace and is proved to follow it.
 */
module BlockBatcher {
  import opened Wrappers
  import opened Domain
  import opened RemoteStore

  /** The largest number of children one append request carries. */
  const MaxChildren := 100

  /** Where a batch goes: after a known block, or after the last block the previous request created. */
  datatype Anchor = After(block: Id) | AfterPreviousBatch

  datatype Batch = Batch(anchor: Anchor, items: seq<Content>)

  /**
   * The batches still to come when `cs` is left to read, `pending` waits to be
   * sent and `anchor` is in force. A full batch is sent before the next record
   * is looked at, whatever that record is; a record with a block ends the
   * batch and becomes the anchor; any other record joins the batch.
   */
  function PlanFrom(cs: seq<Content>, anchor: Anchor, pending: seq<Content>): seq<Batch>
    decreases |cs|
  {
    if cs == [] then
      if pending == [] then [] else [Batch(anchor, pending)]
    else
      var c := cs[0];
      if |pending| == MaxChildren then
        [Batch(anchor, pending)] + PlanFrom(cs[1..], AfterPreviousBatch, [c])
      else if c.blockId.Some? then
        (if pending == [] then [] else [Batch(anchor, pending)]) + PlanFrom(cs[1..], After(c.blockId.value), [])
      else
        PlanFrom(cs[1..], anchor, pending + [c])
  }

  /** The batches for the stream `cs` written below the table of contents `start`. */
  function Plan(cs: seq<Content>, start: Id): seq<Batch> {
    PlanFrom(cs, After(start), [])
  }

  /** The records of a stream that have no block yet, in order. */
  function NewOf(cs: seq<Content>): seq<Content> {
    if cs == [] then []
    else (if cs[0].blockId.None? then [cs[0]] else []) + NewOf(cs[1..])
  }

  /** The records of a plan, batch after batch. */
  function Flatten(plan: seq<Batch>): seq<Content> {
    if plan == [] then [] else plan[0].items + Flatten(plan[1..])
  }

  lemma {:induction false} NewOfAppend(a: seq<Content>, b: seq<Content>)
    ensures NewOf(a + b) == NewOf(a) + NewOf(b)
  {
    if a != [] {
      NewOfAppend(a[1..], b);
      assert (a + b)[1..] == a[1..] + b;
    } else {
      assert a + b == b;
    }
  }

  /** One record read: the three branches of the loop of `append_blocks`. */
  lemma PlanStep(cs: seq<Content>, i: nat, anchor: Anchor, pending: seq<Content>)
    requires i < |cs|
    ensures |pending| == MaxChildren ==>
      PlanFrom(cs[i..], anchor, pending) == [Batch(anchor, pending)] + PlanFrom(cs[i + 1..], AfterPreviousBatch, [cs[i]])
    ensures |pending| != MaxChildren && cs[i].blockId.Some? ==>
      PlanFrom(cs[i..], anchor, pending)
        == (if pending == [] then [] else [Batch(anchor, pending)]) + PlanFrom(cs[i + 1..], After(cs[i].blockId.value), [])
    ensures |pending| != MaxChildren && cs[i].blockId.None? ==>
      PlanFrom(cs[i..], anchor, pending) == PlanFrom(cs[i + 1..], anchor, pending + [cs[i]])
  {
    assert cs[i..][1..] == cs[i + 1..];
  }

  // ---------------------------------------------------------------------------
  // What the plan sends

  /** Every request carries between 1 and 100 children. */
  lemma {:induction false} PlanBatchSizes(cs: seq<Content>, anchor: Anchor, pending: seq<Content>)
    requires |pending| <= MaxChildren
    ensures forall b :: b in PlanFrom(cs, anchor, pending) ==> 1 <= |b.items| <= MaxChildren
  {
    if cs != [] {
      var c := cs[0];
      if |pending| == MaxChildren {
        PlanBatchSizes(cs[1..], AfterPreviousBatch, [c]);
      } else if c.blockId.Some? {
        PlanBatchSizes(cs[1..], After(c.blockId.value), []);
      } else {
        PlanBatchSizes(cs[1..], anchor, pending + [c]);
      }
    }
  }

  /** Every record without a block is sent exactly once, in stream order. */
  lemma {:induction false} PlanSendsEveryNewRecord(cs: seq<Content>, anchor: Anchor, pending: seq<Content>)
    ensures NewOf(Flatten(PlanFrom(cs, anchor, pending))) == NewOf(pending) + NewOf(cs)
  {
    var r := PlanFrom(cs, anchor, pending);
    if cs == [] {
      if pending != [] {
        assert Flatten(r) == pending + Flatten([]);
        assert pending + [] == pending;
      }
    } else {
      var c, rest := cs[0], cs[1..];
      assert cs == [c] + rest;
      NewOfAppend([c], rest);
      assert NewOf([c]) == if c.blockId.None? then [c] else [] by {
        assert [c][1..] == [];
      }
      if |pending| == MaxChildren {
        var r' := PlanFrom(rest, AfterPreviousBatch, [c]);
        PlanSendsEveryNewRecord(rest, AfterPreviousBatch, [c]);
        assert r[1..] == r';
        NewOfAppend(pending, Flatten(r'));
      } else if c.blockId.Some? {
        var r' := PlanFrom(rest, After(c.blockId.value), []);
        PlanSendsEveryNewRecord(rest, After(c.blockId.value), []);
        if pending != [] {
          assert r[1..] == r';
          NewOfAppend(pending, Flatten(r'));
        } else {
          assert r == r';
          assert NewOf(pending) == [];
        }
      } else {
        PlanSendsEveryNewRecord(rest, anchor, pending + [c]);
        NewOfAppend(pending, [c]);
      }
    }
  }

  /** In `r`, whose first batch has the anchor `first`, a batch goes after the previous request only when that request was full. */
  predicate ChainsAfterFull(r: seq<Batch>, first: Anchor) {
    forall i {:trigger r[i]} :: 0 <= i < |r| && r[i].anchor == AfterPreviousBatch ==>
      (i == 0 && first == AfterPreviousBatch) || (i > 0 && |r[i - 1].items| == MaxChildren)
  }

  lemma ChainsAfterFullPrepend(b: Batch, r: seq<Batch>, first: Anchor)
    requires ChainsAfterFull(r, first) && (first == AfterPreviousBatch ==> |b.items| == MaxChildren)
    ensures ChainsAfterFull([b] + r, b.anchor)
  {
    var r' := [b] + r;
    forall i | 1 <= i < |r'| && r'[i].anchor == AfterPreviousBatch ensures |r'[i - 1].items| == MaxChildren {
      assert r'[i] == r[i - 1];
      assert r[i - 1].anchor == AfterPreviousBatch;
      if i == 1 {
        assert r'[0] == b;
      } else {
        assert r'[i - 1] == r[i - 2];
      }
    }
  }

  /** A batch goes after the previous request's last block only when that request was full. */
  lemma {:induction false} AfterPreviousFollowsFullBatch(cs: seq<Content>, anchor: Anchor, pending: seq<Content>)
    ensures ChainsAfterFull(PlanFrom(cs, anchor, pending), anchor)
  {
    if cs != [] {
      var c := cs[0];
      if |pending| == MaxChildren {
        AfterPreviousFollowsFullBatch(cs[1..], AfterPreviousBatch, [c]);
        ChainsAfterFullPrepend(Batch(anchor, pending), PlanFrom(cs[1..], AfterPreviousBatch, [c]), AfterPreviousBatch);
      } else if c.blockId.Some? {
        AfterPreviousFollowsFullBatch(cs[1..], After(c.blockId.value), []);
        if pending != [] {
          assert PlanFrom(cs, anchor, pending) == [Batch(anchor, pending)] + PlanFrom(cs[1..], After(c.blockId.value), []);
          ChainsAfterFullPrepend(Batch(anchor, pending), PlanFrom(cs[1..], After(c.blockId.value), []), After(c.blockId.value));
        }
      } else {
        AfterPreviousFollowsFullBatch(cs[1..], anchor, pending + [c]);
      }
    }
  }

  /** A batch placed after a known block is placed after the starting anchor or after a record of the stream. */
  lemma {:induction false} AnchorsAreKnownBlocks(cs: seq<Content>, anchor: Anchor, pending: seq<Content>)
    ensures forall b :: b in PlanFrom(cs, anchor, pending) && b.anchor.After? ==>
      b.anchor == anchor || exists c :: c in cs && c.blockId == Some(b.anchor.block)
  {
    if cs != [] {
      var c := cs[0];
      assert forall x :: x in cs[1..] ==> x in cs;
      if |pending| == MaxChildren {
        AnchorsAreKnownBlocks(cs[1..], AfterPreviousBatch, [c]);
      } else if c.blockId.Some? {
        AnchorsAreKnownBlocks(cs[1..], After(c.blockId.value), []);
      } else {
        AnchorsAreKnownBlocks(cs[1..], anchor, pending + [c]);
      }
    }
  }

  /** The first batch of a book goes right after its table of contents or after a record that has a block. */
  lemma PlanAnchors(cs: seq<Content>, start: Id)
    ensures var r := Plan(cs, start);
      && (forall i {:trigger r[i]} :: 0 <= i < |r| && r[i].anchor == AfterPreviousBatch ==> i > 0 && |r[i - 1].items| == MaxChildren)
      && (forall b :: b in r && b.anchor.After? ==> b.anchor.block == start || exists c :: c in cs && c.blockId == Some(b.anchor.block))
  {
    var r := Plan(cs, start);
    AfterPreviousFollowsFullBatch(cs, After(start), []);
    AnchorsAreKnownBlocks(cs, After(start), []);
    assert r == PlanFrom(cs, After(start), []);
    assert ChainsAfterFull(r, After(start));
  }

  /** New records read while the batch has room simply join it. */
  lemma {:induction false} NewRecordsJoin(news: seq<Content>, rest: seq<Content>, anchor: Anchor, pending: seq<Content>)
    requires forall c :: c in news ==> c.blockId.None?
    requires |pending| + |news| <= MaxChildren
    ensures PlanFrom(news + rest, anchor, pending) == PlanFrom(rest, anchor, pending + news)
  {
    if news == [] {
      assert news + rest == rest;
      assert pending + news == pending;
    } else {
      assert news[0] in news;
      assert forall c :: c in news[1..] ==> c in news;
      assert (news + rest)[1..] == news[1..] + rest;
      NewRecordsJoin(news[1..], rest, anchor, pending + [news[0]]);
      assert pending + [news[0]] + news[1..] == pending + news;
    }
  }

  /** A stream of new records only is cut into ceil(n / 100) requests, chained one after the other. */
  lemma {:induction false} AllNewBatches(cs: seq<Content>, anchor: Anchor, pending: seq<Content>)
    requires forall c :: c in cs ==> c.blockId.None?
    requires |pending| <= MaxChildren
    ensures var r := PlanFrom(cs, anchor, pending);
      && |r| == (|pending| + |cs| + MaxChildren - 1) / MaxChildren
      && Flatten(r) == pending + cs
      && forall i :: 0 <= i < |r| ==> r[i].anchor == if i == 0 then anchor else AfterPreviousBatch
  {
    var r := PlanFrom(cs, anchor, pending);
    if cs == [] {
      if pending != [] {
        assert Flatten(r) == pending + Flatten([]);
      }
      assert pending + cs == pending;
    } else {
      var c := cs[0];
      assert c in cs;
      assert forall x :: x in cs[1..] ==> x in cs;
      if |pending| == MaxChildren {
        var r' := PlanFrom(cs[1..], AfterPreviousBatch, [c]);
        AllNewBatches(cs[1..], AfterPreviousBatch, [c]);
        assert r == [Batch(anchor, pending)] + r';
        assert r[1..] == r';
        assert [c] + cs[1..] == cs;
        forall i | 1 <= i < |r| ensures r[i].anchor == AfterPreviousBatch {
          assert r[i] == r'[i - 1];
        }
      } else {
        AllNewBatches(cs[1..], anchor, pending + [c]);
        assert pending + [c] + cs[1..] == pending + cs;
      }
    }
  }

  /** Nothing is sent for a stream whose records all have blocks. */
  lemma {:induction false} AllExistingSendsNothing(cs: seq<Content>, anchor: Anchor)
    requires forall c :: c in cs ==> c.blockId.Some?
    ensures PlanFrom(cs, anchor, []) == []
  {
    if cs != [] {
      assert cs[0] in cs;
      assert forall x :: x in cs[1..] ==> x in cs;
      AllExistingSendsNothing(cs[1..], After(cs[0].blockId.value));
    }
  }

  /**
   * A record that already has a block, read when 100 new records are waiting,
   * is sent again as a new block: the full batch is flushed first and the
   * record then opens the next batch.
   */
  lemma CapResendsExistingRecord(news: seq<Content>, x: Content, start: Id)
    requires |news| == MaxChildren && forall c :: c in news ==> c.blockId.None?
    requires x.blockId.Some?
    ensures Plan(news + [x], start) == [Batch(After(start), news), Batch(AfterPreviousBatch, [x])]
  {
    NewRecordsJoin(news, [x], After(start), []);
    assert [] + news == news;
    assert [x][1..] == [];
  }

  /**
   * A record with a block between two runs of new records, the first run
   * below the cap, splits the stream into exactly two requests: the first
   * run after the start, the second after that record's block.
   */
  lemma ExistingBetweenRuns(a: seq<Content>, x: Content, b: seq<Content>, start: Id)
    requires 0 < |a| < MaxChildren && 0 < |b| <= MaxChildren
    requires (forall c :: c in a ==> c.blockId.None?) && (forall c :: c in b ==> c.blockId.None?)
    requires x.blockId.Some?
    ensures Plan(a + [x] + b, start) == [Batch(After(start), a), Batch(After(x.blockId.value), b)]
  {
    assert a + [x] + b == a + ([x] + b);
    NewRecordsJoin(a, [x] + b, After(start), []);
    assert [] + a == a;
    assert ([x] + b)[1..] == b;
    NewRecordsJoin(b, [], After(x.blockId.value), []);
    assert b + [] == b && [] + b == b;
  }

  // ---------------------------------------------------------------------------
  // Performing the plan against the workspace

  /** The `abstract` of `c`, when it gets a quote block. */
  function AbstractOf(c: Content): string
    requires HasAbstract(c)
  {
    c.abstractText.value
  }

  /**
   * `calls` are the quote appends for the records `items` whose blocks are
   * `ids`: one request with one quote below each record that has an abstract,
   * in record order.
   */
  ghost predicate AbstractCalls(calls: seq<Call>, items: seq<Content>, ids: seq<Id>)
    requires |items| <= |ids|
    decreases |items|
  {
    if items == [] then calls == []
    else
      var n := |items| - 1;
      if HasAbstract(items[n]) then
        && calls != []
        && calls[|calls| - 1].AppendChildren?
        && calls[|calls| - 1].parent == ids[n]
        && calls[|calls| - 1].children == [Quote(AbstractOf(items[n]))]
        && |calls[|calls| - 1].result| == 1
        && AbstractCalls(calls[..|calls| - 1], items[..n], ids)
      else AbstractCalls(calls, items[..n], ids)
  }

  function CountAbstracts(items: seq<Content>): nat {
    if items == [] then 0
    else CountAbstracts(items[..|items| - 1]) + if HasAbstract(items[|items| - 1]) then 1 else 0
  }

  /** One quote request per record with an abstract, each appending a single quote block. */
  lemma {:induction false} AbstractCallsCount(calls: seq<Call>, items: seq<Content>, ids: seq<Id>)
    requires |items| <= |ids| && AbstractCalls(calls, items, ids)
    ensures |calls| == CountAbstracts(items)
    ensures forall c :: c in calls ==> c.AppendChildren? && |c.children| == 1 && c.children[0].Quote?
  {
    if items != [] {
      var n := |items| - 1;
      if HasAbstract(items[n]) {
        var m := |calls| - 1;
        AbstractCallsCount(calls[..m], items[..n], ids);
        assert calls == calls[..m] + [calls[m]];
      } else {
        AbstractCallsCount(calls, items[..n], ids);
      }
    }
  }

  /** The records with their new blocks written back into `blockId`. */
  function WithBlockIds(items: seq<Content>, ids: seq<Id>): (r: seq<Content>)
    requires |items| <= |ids|
    ensures |r| == |items|
    ensures forall k :: 0 <= k < |r| ==> r[k] == items[k].(blockId := Some(ids[k]))
  {
    seq(|items|, k requires 0 <= k < |items| => items[k].(blockId := Some(ids[k])))
  }

  /** What one request of `append_blocks_to_notion` did. */
  datatype Flush = Flush(after: Id, blocks: seq<Block>, items: seq<Content>, ids: seq<Id>, quotes: seq<Call>)

  /** The calls one flush makes: the insertion after its anchor, then the quotes. */
  ghost function FlushCalls(page: Id, f: Flush): seq<Call> {
    [AppendAfter(page, f.blocks, f.after, f.ids)] + f.quotes
  }

  ghost function FlushLog(page: Id, fs: seq<Flush>): seq<Call> {
    if fs == [] then [] else FlushLog(page, fs[..|fs| - 1]) + FlushCalls(page, fs[|fs| - 1])
  }

  /** The records of every flush with their new blocks: the list `l` of `append_blocks`. */
  function Written(fs: seq<Flush>): seq<Content> {
    if fs == [] then []
    else
      var f := fs[|fs| - 1];
      Written(fs[..|fs| - 1]) + if |f.items| <= |f.ids| then WithBlockIds(f.items, f.ids) else []
  }

  function Last(ids: seq<Id>): Id
    requires ids != []
  {
    ids[|ids| - 1]
  }

  /** Flush `i` sends batch `i`: its records, their blocks, its anchor resolved, its quotes. */
  ghost predicate FlushFor(fs: seq<Flush>, plan: seq<Batch>, i: nat)
    requires i < |fs| && i < |plan|
  {
    var f, b := fs[i], plan[i];
    && f.items == b.items && f.blocks == ToBlocks(b.items) && |f.ids| == |b.items|
    && AbstractCalls(f.quotes, f.items, f.ids)
    && match b.anchor
       case After(block) => f.after == block
       case AfterPreviousBatch => i > 0 && fs[i - 1].ids != [] && f.after == Last(fs[i - 1].ids)
  }

  /** The flushes `fs` carry out the batches `plan`, one for one. */
  ghost predicate Realizes(fs: seq<Flush>, plan: seq<Batch>) {
    |fs| == |plan| && forall i :: 0 <= i < |fs| ==> FlushFor(fs, plan, i)
  }

  /** The block id in `before` is the one the symbolic anchor stands for. */
  ghost predicate Anchored(anchor: Anchor, before: Id, fs: seq<Flush>) {
    match anchor
    case After(block) => before == block
    case AfterPreviousBatch => fs != [] && fs[|fs| - 1].ids != [] && before == Last(fs[|fs| - 1].ids)
  }

  lemma Flushed(page: Id, fs: seq<Flush>, plan: seq<Batch>, anchor: Anchor, before: Id, pending: seq<Content>, f: Flush)
    requires Realizes(fs, plan) && Anchored(anchor, before, fs)
    requires f.after == before && f.items == pending && f.blocks == ToBlocks(pending) && |f.ids| == |pending|
    requires AbstractCalls(f.quotes, f.items, f.ids)
    ensures Realizes(fs + [f], plan + [Batch(anchor, pending)])
    ensures FlushLog(page, fs + [f]) == FlushLog(page, fs) + FlushCalls(page, f)
    ensures Written(fs + [f]) == Written(fs) + WithBlockIds(pending, f.ids)
  {
    var fs', plan' := fs + [f], plan + [Batch(anchor, pending)];
    assert fs'[..|fs|] == fs;
    forall i | 0 <= i < |fs'| ensures FlushFor(fs', plan', i) {
      if i < |fs| {
        assert FlushFor(fs, plan, i);
        assert fs'[i] == fs[i] && plan'[i] == plan[i];
        if i > 0 {
          assert fs'[i - 1] == fs[i - 1];
        }
      } else if anchor == AfterPreviousBatch {
        assert fs'[i - 1] == fs[|fs| - 1];
      }
    }
  }

  /**
   * `append_blocks_to_notion`: insert `blocks` after `after`, then for each
   * record its new block id, a quote below it when it has an abstract, and the
   * id written back into the record.
   */
  method AppendBlocksToNotion(store: Store, page: Id, blocks: seq<Block>, after: Id, contents: seq<Content>)
      returns (l: seq<Content>, ghost f: Flush)
    requires |contents| <= |blocks|
    modifies store
    ensures f.after == after && f.blocks == blocks && f.items == contents && |f.ids| == |blocks|
    ensures AbstractCalls(f.quotes, contents, f.ids)
    ensures l == WithBlockIds(contents, f.ids)
    ensures store.log == old(store.log) + FlushCalls(page, f)
    ensures store.pages == old(store.pages)
  {
    var results := store.AppendAfterBlock(page, blocks, after);
    ghost var log0 := store.log;
    ghost var quotes: seq<Call> := [];
    l := [];
    var i := 0;
    while i < |contents|
      invariant 0 <= i <= |contents|
      invariant AbstractCalls(quotes, contents[..i], results)
      invariant l == WithBlockIds(contents[..i], results)
      invariant store.log == log0 + quotes && store.pages == old(store.pages)
    {
      var content := contents[i];
      var result := results[i];
      assert contents[..i + 1][..i] == contents[..i];
      if HasAbstract(content) {
        var quoteIds := store.Append(result, [Quote(content.abstractText.value)]);
        quotes := quotes + [AppendChildren(result, [Quote(content.abstractText.value)], quoteIds)];
        assert quotes[..|quotes| - 1] == quotes[..|quotes| - 1];
      }
      l := l + [content.(blockId := Some(result))];
      i := i + 1;
    }
    assert contents[..i] == contents;
    f := Flush(after, blocks, contents, results, quotes);
  }

  /** Sends the waiting batch and records it as the next flush of the plan. */
  method FlushPending(store: Store, page: Id, blocks: seq<Block>, before: Id, pending: seq<Content>,
                      ghost anchor: Anchor, ghost plan: seq<Batch>, ghost fs: seq<Flush>, l: seq<Content>)
      returns (results: seq<Content>, l': seq<Content>, ghost fs': seq<Flush>)
    requires pending != [] && blocks == ToBlocks(pending)
    requires Realizes(fs, plan) && Anchored(anchor, before, fs) && l == Written(fs)
    modifies store
    ensures Realizes(fs', plan + [Batch(anchor, pending)]) && l' == Written(fs')
    ensures results != [] && results[|results| - 1].blockId.Some?
    ensures Anchored(AfterPreviousBatch, results[|results| - 1].blockId.value, fs')
    ensures store.log == old(store.log) + FlushCalls(page, fs'[|fs'| - 1])
    ensures FlushLog(page, fs') == FlushLog(page, fs) + FlushCalls(page, fs'[|fs'| - 1])
    ensures store.pages == old(store.pages)
  {
    ghost var f;
    results, f := AppendBlocksToNotion(store, page, blocks, before, pending);
    Flushed(page, fs, plan, anchor, before, pending, f);
    fs' := fs + [f];
    l' := l + results;
  }

  /** The table-of-contents request made when the page does not start with one. */
  ghost function TocCalls(page: Id, children: seq<(Block, Id)>, start: Id): seq<Call> {
    if |children| > 0 && children[0].0 == TableOfContents then []
    else [AppendChildren(page, [TableOfContents], [start])]
  }

  /**
   * `append_blocks`: find or create the table of contents, send the new
   * records batch by batch after their anchors, then record every created
   * block in its index database. `children` is the page's current children
   * (type and id), as the workspace reports them.
   */
  method AppendBlocks(store: Store, page: Id, children: seq<(Block, Id)>, contents: seq<Content>)
      returns (ghost start: Id, ghost fs: seq<Flush>)
    modifies store
    ensures |children| > 0 && children[0].0 == TableOfContents ==> start == children[0].1
    ensures Realizes(fs, Plan(contents, start))
    ensures store.log == old(store.log) + TocCalls(page, children, start) + FlushLog(page, fs) + InsertCalls(page, Written(fs))
    ensures store.pages == old(store.pages)
  {
    var before: Id;
    if |children| > 0 && children[0].0 == TableOfContents {
      before := children[0].1;
    } else {
      var response := store.Append(page, [TableOfContents]);
      before := response[0];
      assert response == [before];
    }
    start := before;
    var l;
    l, fs := SendBatches(store, page, before, contents);
    InsertIndexRecords(store, page, l);
  }

  /** The loop of `append_blocks` and the flush after it: every batch of the plan sent in turn. */
  method SendBatches(store: Store, page: Id, start: Id, contents: seq<Content>) returns (l: seq<Content>, ghost fs: seq<Flush>)
    modifies store
    ensures Realizes(fs, Plan(contents, start)) && l == Written(fs)
    ensures store.log == old(store.log) + FlushLog(page, fs)
    ensures store.pages == old(store.pages)
  {
    var before := start;
    ghost var log0 := store.log;
    ghost var anchor := After(before);
    ghost var plan: seq<Batch> := [];
    fs := [];
    var blocks: seq<Block> := [];
    var pending: seq<Content> := [];
    l := [];
    var i := 0;
    while i < |contents|
      invariant 0 <= i <= |contents|
      invariant Plan(contents, start) == plan + PlanFrom(contents[i..], anchor, pending)
      invariant |pending| <= MaxChildren && blocks == ToBlocks(pending)
      invariant Realizes(fs, plan) && Anchored(anchor, before, fs) && l == Written(fs)
      invariant store.log == log0 + FlushLog(page, fs) && store.pages == old(store.pages)
    {
      before, blocks, pending, anchor, plan, fs, l := ReadRecord(store, page, start, log0, contents, i, before, blocks, pending, anchor, plan, fs, l);
      i := i + 1;
    }
    assert contents[i..] == [];
    if |blocks| > 0 {
      var results;
      results, l, fs := FlushPending(store, page, blocks, before, pending, anchor, plan, fs, l);
      plan := plan + [Batch(anchor, pending)];
    } else {
      assert plan + [] == plan;
    }
  }

  /** One turn of the loop of `append_blocks`: the record `contents[i]` read. */
  method ReadRecord(store: Store, page: Id, ghost start: Id, ghost log0: seq<Call>, contents: seq<Content>, i: nat,
                    before: Id, blocks: seq<Block>, pending: seq<Content>,
                    ghost anchor: Anchor, ghost plan: seq<Batch>, ghost fs: seq<Flush>, l: seq<Content>)
      returns (before': Id, blocks': seq<Block>, pending': seq<Content>,
               ghost anchor': Anchor, ghost plan': seq<Batch>, ghost fs': seq<Flush>, l': seq<Content>)
    requires i < |contents|
    requires Plan(contents, start) == plan + PlanFrom(contents[i..], anchor, pending)
    requires |pending| <= MaxChildren && blocks == ToBlocks(pending)
    requires Realizes(fs, plan) && Anchored(anchor, before, fs) && l == Written(fs)
    requires store.log == log0 + FlushLog(page, fs)
    modifies store
    ensures Plan(contents, start) == plan' + PlanFrom(contents[i + 1..], anchor', pending')
    ensures |pending'| <= MaxChildren && blocks' == ToBlocks(pending')
    ensures Realizes(fs', plan') && Anchored(anchor', before', fs') && l' == Written(fs')
    ensures store.log == log0 + FlushLog(page, fs') && store.pages == old(store.pages)
  {
    var content := contents[i];
    PlanStep(contents, i, anchor, pending);
    if |blocks| == MaxChildren {
      var results;
      results, l', fs' := FlushPending(store, page, blocks, before, pending, anchor, plan, fs, l);
      before' := results[|results| - 1].blockId.value;
      plan', anchor' := plan + [Batch(anchor, pending)], AfterPreviousBatch;
      blocks', pending' := [ToBlock(content)], [content];
    } else if content.blockId.Some? {
      plan', fs', l' := plan, fs, l;
      if |blocks| > 0 {
        var results;
        results, l', fs' := FlushPending(store, page, blocks, before, pending, anchor, plan, fs, l);
        plan' := plan + [Batch(anchor, pending)];
      } else {
        assert [] + PlanFrom(contents[i + 1..], After(content.blockId.value), []) == PlanFrom(contents[i + 1..], After(content.blockId.value), []);
      }
      before' := content.blockId.value;
      anchor' := After(before');
      blocks', pending' := [], [];
    } else {
      blocks', pending' := blocks + [ToBlock(content)], pending + [content];
      plan', anchor', fs', l', before' := plan, anchor, fs, l, before;
    }
  }


  /** The index insertions for the created blocks `l`, one per record, by the record's kind. */
  ghost function InsertCalls(page: Id, l: seq<Content>): seq<Call> {
    if l == [] then []
    else InsertCalls(page, l[..|l| - 1]) + [InsertIndex(KindOf(l[|l| - 1]), page, l[|l| - 1])]
  }

  /** Highlights go to the bookmark index, reviews to the review index, the rest to the chapter index. */
  lemma {:induction false} InsertCallsByKind(page: Id, l: seq<Content>)
    ensures |InsertCalls(page, l)| == |l|
    ensures forall i :: 0 <= i < |l| ==> InsertCalls(page, l)[i] == InsertIndex(KindOf(l[i]), page, l[i])
  {
    if l != [] {
      var n := |l| - 1;
      InsertCallsByKind(page, l[..n]);
      forall i | 0 <= i < n ensures InsertCalls(page, l)[i] == InsertIndex(KindOf(l[i]), page, l[i]) {
        assert l[..n][i] == l[i];
      }
    }
  }

  /** The last loop of `append_blocks`. */
  method InsertIndexRecords(store: Store, page: Id, l: seq<Content>)
    modifies store
    ensures store.log == old(store.log) + InsertCalls(page, l)
    ensures store.pages == old(store.pages)
  {
    var i := 0;
    while i < |l|
      invariant 0 <= i <= |l|
      invariant store.log == old(store.log) + InsertCalls(page, l[..i]) && store.pages == old(store.pages)
    {
      var value := l[i];
      assert l[..i + 1][..i] == l[..i];
      if value.bookmarkId.Some? {
        store.Insert(BookmarkIndex, page, value);
      } else if value.reviewId.Some? {
        store.Insert(ReviewIndex, page, value);
      } else {
        store.Insert(ChapterIndex, page, value);
      }
      i := i + 1;
    }
    assert l[..i] == l;
  }
}
