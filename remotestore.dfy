/**
 * The workspace service as the synchronizer sees it. Every mutating request is
 * appended to a ghost call log; requests that create blocks or pages answer
 * with fresh identifiers taken from a counter. The book database is kept as a
 * map from BookId to the page and its `Sort` value, which is all the lookups
 * of the synchronizer read from it.
 */
module RemoteStore {
  import opened Wrappers
  import opened Domain
  import opened BookPage

  datatype Call =
    | DeleteBlock(target: Id)
    | AppendChildren(parent: Id, children: seq<Block>, result: seq<Id>)
    | AppendAfter(parent: Id, children: seq<Block>, after: Id, result: seq<Id>)
    | InsertIndex(kind: IndexKind, page: Id, record: Content)
    | CreatePage(bookId: string, page: Id, props: BookProps)
    | UpdatePage(bookId: string, page: Id, props: BookProps)

  /** A page of the book database: its id and its `Sort` property. */
  datatype Page = Page(id: Id, sort: int)

  predicate WritesPage(c: Call) {
    c.CreatePage? || c.UpdatePage?
  }

  /** The (BookId, Sort) pairs written to book pages, in call order. */
  ghost function PageWrites(log: seq<Call>): seq<(string, int)> {
    if log == [] then []
    else
      var c := log[|log| - 1];
      PageWrites(log[..|log| - 1]) + if WritesPage(c) then [(c.bookId, c.props.sort)] else []
  }

  lemma {:induction false} PageWritesAppend(a: seq<Call>, b: seq<Call>)
    ensures PageWrites(a + b) == PageWrites(a) + PageWrites(b)
  {
    if b != [] {
      PageWritesAppend(a, b[..|b| - 1]);
      assert (a + b)[..|a + b| - 1] == a + b[..|b| - 1];
    } else {
      assert a + b == a;
    }
  }

  lemma {:induction false} NoPageWrites(calls: seq<Call>)
    requires forall c :: c in calls ==> !WritesPage(c)
    ensures PageWrites(calls) == []
  {
    if calls != [] {
      NoPageWrites(calls[..|calls| - 1]);
    }
  }

  /** The `Sort` values present in the book database. */
  ghost function Sorts(pages: map<string, Page>): set<int> {
    set b | b in pages :: pages[b].sort
  }

  class Store {
    ghost var log: seq<Call>
    var nextId: nat
    var pages: map<string, Page>

    constructor (existing: map<string, Page>, firstFreshId: nat)
      ensures log == [] && pages == existing && nextId == firstFreshId
    {
      log := [];
      pages := existing;
      nextId := firstFreshId;
    }

    /** `n` identifiers never handed out before, in increasing order. */
    method FreshIds(n: nat) returns (ids: seq<Id>)
      modifies this`nextId
      ensures |ids| == n && nextId == old(nextId) + n
      ensures forall i :: 0 <= i < n ==> ids[i] == old(nextId) + i
    {
      var first := nextId;
      ids := seq(n, i requires 0 <= i < n => first + i);
      nextId := nextId + n;
    }

    method Delete(target: Id)
      modifies this
      ensures log == old(log) + [DeleteBlock(target)]
      ensures pages == old(pages) && nextId == old(nextId)
    {
      log := log + [DeleteBlock(target)];
    }

    /** Appends `children` at the end of `parent`; one new block id per child. */
    method Append(parent: Id, children: seq<Block>) returns (ids: seq<Id>)
      modifies this
      ensures |ids| == |children|
      ensures forall i :: 0 <= i < |ids| ==> old(nextId) <= ids[i] < nextId
      ensures log == old(log) + [AppendChildren(parent, children, ids)]
      ensures pages == old(pages) && nextId >= old(nextId)
    {
      ids := FreshIds(|children|);
      log := log + [AppendChildren(parent, children, ids)];
    }

    /** Inserts `children` under `parent` right after the block `after`; one new block id per child. */
    method AppendAfterBlock(parent: Id, children: seq<Block>, after: Id) returns (ids: seq<Id>)
      modifies this
      ensures |ids| == |children|
      ensures forall i :: 0 <= i < |ids| ==> old(nextId) <= ids[i] < nextId
      ensures log == old(log) + [AppendAfter(parent, children, after, ids)]
      ensures pages == old(pages) && nextId >= old(nextId)
    {
      ids := FreshIds(|children|);
      log := log + [AppendAfter(parent, children, after, ids)];
    }

    /** Records a created block in the index database of its kind. */
    method Insert(kind: IndexKind, page: Id, record: Content)
      modifies this
      ensures log == old(log) + [InsertIndex(kind, page, record)]
      ensures pages == old(pages) && nextId == old(nextId)
    {
      log := log + [InsertIndex(kind, page, record)];
    }

    /** The page whose BookId property is `bookId`, if there is one. */
    method FindBook(bookId: string) returns (page: Option<Id>)
      ensures page == if bookId in pages then Some(pages[bookId].id) else None
    {
      page := if bookId in pages then Some(pages[bookId].id) else None;
    }

    method CreateBookPage(bookId: string, props: BookProps) returns (page: Id)
      modifies this
      ensures old(nextId) <= page < nextId
      ensures pages == old(pages)[bookId := Page(page, props.sort)]
      ensures log == old(log) + [CreatePage(bookId, page, props)]
    {
      var ids := FreshIds(1);
      page := ids[0];
      pages := pages[bookId := Page(page, props.sort)];
      log := log + [CreatePage(bookId, page, props)];
    }

    method UpdateBookPage(bookId: string, page: Id, props: BookProps)
      modifies this
      ensures pages == old(pages)[bookId := Page(page, props.sort)] && nextId == old(nextId)
      ensures log == old(log) + [UpdatePage(bookId, page, props)]
    {
      pages := pages[bookId := Page(page, props.sort)];
      log := log + [UpdatePage(bookId, page, props)];
    }

    /**
     * The query "pages whose Sort is not empty, by Sort descending, one
     * result": the largest Sort, or nothing when the database is empty.
     */
    method QueryTopSort() returns (results: seq<int>)
      ensures |results| <= 1
      ensures results == [] <==> pages == map[]
      ensures results != [] ==> results[0] in Sorts(pages)
      ensures results != [] ==> forall s :: s in Sorts(pages) ==> s <= results[0]
    {
      var remaining := pages.Keys;
      results := [];
      while remaining != {}
        invariant remaining <= pages.Keys
        invariant |results| <= 1
        invariant results == [] <==> remaining == pages.Keys
        invariant results != [] ==> results[0] in Sorts(pages)
        invariant results != [] ==> forall b :: b in pages && b !in remaining ==> pages[b].sort <= results[0]
        decreases remaining
      {
        var b :| b in remaining;
        if results == [] || pages[b].sort > results[0] {
          results := [pages[b].sort];
        }
        remaining := remaining - {b};
      }
      if pages != map[] {
        assert pages.Keys != {};
      }
    }
  }
}
