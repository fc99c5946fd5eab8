/**
 * The records the synchronizer moves around: annotations (highlights and
 * reviews) and chapter records as the reading service returns them, the blocks
 * they become on the workspace side, and the sort key that orders them.
 */
module Domain {
  import opened Wrappers

  /** Identifiers of workspace pages and blocks; their text form plays no part here. */
  type Id = nat

  /** The fields only the block builders look at; they are carried along unchanged. */
  datatype Text = Text(markText: string, content: string, title: string, level: int, style: int, colorStyle: int)

  /**
   * One record of the note stream. Each `Option` field stands for a dictionary
   * key that may be absent: a highlight has `bookmarkId` (and may link a
   * `reviewId`), a review has `reviewId` only, a chapter record has neither.
   * `blockId` is the workspace block that already shows the record, if any.
   */
  datatype Content = Content(
    bookmarkId: Option<string>,
    reviewId: Option<string>,
    chapterUid: Option<int>,
    range: Option<string>,
    abstractText: Option<string>,  // the `abstract` key
    blockId: Option<Id>,
    text: Text)

  /** Workspace blocks; the builders that render them are foreign code, so a block is its arguments. */
  datatype Block =
    | Callout(body: string, style: int, colorStyle: int, reviewId: Option<string>)
    | Heading(level: int, title: string)
    | TableOfContents
    | Quote(body: string)

  /** The three index databases a created block is recorded in. */
  datatype IndexKind = BookmarkIndex | ReviewIndex | ChapterIndex

  /** The key dispatch shared by block building and index insertion: `bookmarkId` first, then `reviewId`. */
  function KindOf(c: Content): IndexKind {
    if c.bookmarkId.Some? then BookmarkIndex
    else if c.reviewId.Some? then ReviewIndex
    else ChapterIndex
  }

  predicate IsChapterRecord(c: Content) {
    KindOf(c) == ChapterIndex
  }

  /** The block a record becomes: a callout for an annotation, a heading for a chapter. */
  function ToBlock(c: Content): (b: Block)
    ensures b.Heading? <==> IsChapterRecord(c)
    ensures b.Callout? <==> !IsChapterRecord(c)
    ensures b.Callout? ==> b.reviewId == c.reviewId && b.style == c.text.style && b.colorStyle == c.text.colorStyle
    ensures b.Callout? ==> b.body == if c.bookmarkId.Some? then c.text.markText else c.text.content
    ensures b.Heading? ==> b.level == c.text.level && b.title == c.text.title
  {
    match KindOf(c)
    case BookmarkIndex => Callout(c.text.markText, c.text.style, c.text.colorStyle, c.reviewId)
    case ReviewIndex => Callout(c.text.content, c.text.style, c.text.colorStyle, c.reviewId)
    case ChapterIndex => Heading(c.text.level, c.text.title)
  }

  function ToBlocks(cs: seq<Content>): (bs: seq<Block>)
    ensures |bs| == |cs|
    ensures forall i :: 0 <= i < |cs| ==> bs[i] == ToBlock(cs[i])
  {
    seq(|cs|, i requires 0 <= i < |cs| => ToBlock(cs[i]))
  }

  /** An `abstract` (`abstractText`) that is present and not the empty string gets a quote block of its own. */
  predicate HasAbstract(c: Content) {
    c.abstractText.Some? && c.abstractText.value != ""
  }

  // ---------------------------------------------------------------------------
  // The sort key: (chapterUid, default 1; start offset of `range`, default 0)

  function Uid(c: Content): int {
    c.chapterUid.GetOr(1)
  }

  predicate IsDigits(s: string) {
    forall i :: 0 <= i < |s| ==> '0' <= s[i] <= '9'
  }

  /** The text before the first '-', as `s.split("-")[0]` gives it. */
  function BeforeDash(s: string): (p: string)
    ensures |p| <= |s| && p == s[..|p|]
    ensures '-' !in p
    ensures |p| < |s| ==> s[|p|] == '-'
  {
    if s == [] || s[0] == '-' then [] else [s[0]] + BeforeDash(s[1..])
  }

  function DecimalValue(s: string): nat
    requires IsDigits(s)
  {
    if s == [] then 0 else 10 * DecimalValue(s[..|s| - 1]) + (s[|s| - 1] - '0') as nat
  }

  /**
   * The start offset is parsed with `int()`, which raises on anything but a
   * number; the model covers the prefixes made of decimal digits.
   */
  predicate RangeParses(c: Content) {
    c.range.None? || IsDigits(BeforeDash(c.range.value))
  }

  function Offset(c: Content): nat
    requires RangeParses(c)
  {
    if c.range.None? || c.range.value == "" || BeforeDash(c.range.value) == "" then 0
    else DecimalValue(BeforeDash(c.range.value))
  }

  datatype SortKey = SortKey(chapter: int, offset: nat)

  function KeyOf(c: Content): SortKey
    requires RangeParses(c)
  {
    SortKey(Uid(c), Offset(c))
  }

  /** Lexicographic order on (chapter, offset), as Python compares tuples. */
  predicate KeyLe(a: SortKey, b: SortKey) {
    a.chapter < b.chapter || (a.chapter == b.chapter && a.offset <= b.offset)
  }
}
