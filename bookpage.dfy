/**
 * The pure parts of building a book page: read progress and status, the
 * timestamp shown as the finishing time, the cover URL and its icon, and the
 * file name a downloaded cover is saved under.
 */
module BookPage {
  import opened Wrappers

  datatype ReadDetail = ReadDetail(lastReadingDate: Option<int>, beginReadingDate: Option<int>)

  /** The read-progress record of one book; every field may be absent. Times are Unix seconds. */
  datatype ReadInfo = ReadInfo(
    markedStatus: Option<int>,
    readingTime: Option<int>,
    readingProgress: Option<int>,
    totalReadDay: Option<int>,
    finishedDate: Option<int>,
    readDetail: Option<ReadDetail>,
    readingBookDate: Option<int>,
    intro: Option<string>)

  /** "已读" (finished) and "在读" (reading). */
  datatype ReadStatus = Finished | Reading

  /**
   * The reading properties of a page. Progress is an integer percentage;
   * times are seconds shifted to UTC+8, the zone the dates are written in.
   */
  datatype ReadingState = ReadingState(
    status: ReadStatus,
    readingSeconds: int,
    progressPercent: int,
    readDays: int,
    finishedAt: int,
    lastReadAt: Option<int>,
    startedAt: Option<int>,
    intro: Option<string>)

  /** The properties of a book page that the model keeps. */
  datatype BookProps = BookProps(sort: int, cover: string, icon: string, reading: Option<ReadingState>)

  /** The status value that marks a book as read to the end. */
  const FinishedMark := 4

  /** Dates are shown as UTC plus eight hours. */
  const ShownOffset := 8 * 3600

  const BookmarkIconUrl := "https://www.notion.so/icons/bookmark_gray.svg"

  const OfficialAccountAuthor := "公众号"

  function StatusName(s: ReadStatus): string {
    match s
    case Finished => "已读"
    case Reading => "在读"
  }

  /**
   * The raw finishing timestamp: `finishedDate` if present; otherwise, when a
   * `readDetail` is present, its `lastReadingDate` or else `now` (a
   * `readingBookDate` is then not consulted); otherwise `readingBookDate`,
   * and `now` as the last resort.
   */
  function FinishedStamp(info: ReadInfo, now: int): int {
    if info.finishedDate.Some? then info.finishedDate.value
    else if info.readDetail.Some? then info.readDetail.value.lastReadingDate.GetOr(now)
    else info.readingBookDate.GetOr(now)
  }

  /** The reading properties derived from a read-progress record, with `now` standing for the clock. */
  function ReadingStateOf(info: ReadInfo, now: int): (r: ReadingState)
    ensures r.status == Finished <==> info.markedStatus == Some(FinishedMark)
    ensures r.status == Finished ==> r.progressPercent == 100
    ensures r.status == Reading ==> r.progressPercent == info.readingProgress.GetOr(0)
    ensures r.readingSeconds == info.readingTime.GetOr(0) && r.readDays == info.totalReadDay.GetOr(0)
    // the finishing time, by precedence: finishedDate, then readDetail, then readingBookDate
    ensures info.finishedDate.Some? ==> r.finishedAt == info.finishedDate.value + ShownOffset
    ensures info.finishedDate.None? && info.readDetail.Some? && info.readDetail.value.lastReadingDate.Some? ==>
      r.finishedAt == info.readDetail.value.lastReadingDate.value + ShownOffset
    ensures info.finishedDate.None? && info.readDetail.Some? && info.readDetail.value.lastReadingDate.None? ==>
      r.finishedAt == now + ShownOffset
    ensures info.finishedDate.None? && info.readDetail.None? && info.readingBookDate.Some? ==>
      r.finishedAt == info.readingBookDate.value + ShownOffset
    ensures info.finishedDate.None? && info.readDetail.None? && info.readingBookDate.None? ==>
      r.finishedAt == now + ShownOffset
    // the last reading time is written only from the readDetail branch
    ensures r.lastReadAt.Some? <==>
      info.finishedDate.None? && info.readDetail.Some? && info.readDetail.value.lastReadingDate.Some?
    ensures r.lastReadAt.Some? ==> r.lastReadAt.value == r.finishedAt
    ensures r.startedAt.Some? <==> info.readDetail.Some? && info.readDetail.value.beginReadingDate.Some?
    ensures r.startedAt.Some? ==> r.startedAt.value == info.readDetail.value.beginReadingDate.value + ShownOffset
    ensures r.intro == info.intro
  {
    var finished := info.markedStatus.GetOr(0) == FinishedMark;
    var lastRead :=
      if info.finishedDate.None? && info.readDetail.Some? && info.readDetail.value.lastReadingDate.Some?
      then Some(info.readDetail.value.lastReadingDate.value + ShownOffset) else None;
    var started :=
      if info.readDetail.Some? && info.readDetail.value.beginReadingDate.Some?
      then Some(info.readDetail.value.beginReadingDate.value + ShownOffset) else None;
    ReadingState(
      if finished then Finished else Reading,
      info.readingTime.GetOr(0),
      if finished then 100 else info.readingProgress.GetOr(0),
      info.totalReadDay.GetOr(0),
      FinishedStamp(info, now) + ShownOffset,
      lastRead,
      started,
      info.intro)
  }

  /** When a `readDetail` without `lastReadingDate` is present, the clock wins over `readingBookDate`. */
  lemma ReadDetailShadowsReadingBookDate(info: ReadInfo, now: int)
    requires info.finishedDate.None? && info.readDetail.Some? && info.readDetail.value.lastReadingDate.None?
    ensures ReadingStateOf(info, now).finishedAt == now + ShownOffset
  {
  }

  predicate StartsWith(s: string, prefix: string) {
    |prefix| <= |s| && s[..|prefix|] == prefix
  }

  predicate EndsWith(s: string, suffix: string) {
    |suffix| <= |s| && s[|s| - |suffix|..] == suffix
  }

  /** The text after the last '/', as `s.split("/")[-1]` gives it. */
  function LastSegment(s: string): (r: string)
    ensures '/' !in r
  {
    if s == [] || s[|s| - 1] == '/' then [] else LastSegment(s[..|s| - 1]) + [s[|s| - 1]]
  }

  /** The last segment is a suffix of the text, preceded by a '/' unless it is the whole text. */
  lemma {:induction false} LastSegmentIsSuffix(s: string)
    ensures var r := LastSegment(s);
      |r| <= |s| && r == s[|s| - |r|..] && (|r| < |s| ==> s[|s| - |r| - 1] == '/')
  {
    if s != [] && s[|s| - 1] != '/' {
      var init := s[..|s| - 1];
      LastSegmentIsSuffix(init);
      var r0, r := LastSegment(init), LastSegment(s);
      assert r == r0 + [s[|s| - 1]];
      forall i | 0 <= i < |r| ensures r[i] == s[|s| - |r| + i] {
        if i < |r0| {
          assert r0[i] == init[|init| - |r0| + i];
        }
      }
      assert r == s[|s| - |r|..];
    }
  }

  /** The name a downloaded cover is saved under: the last path segment of its URL plus ".jpg". */
  function FileName(url: string): (name: string)
    ensures '/' !in name && EndsWith(name, ".jpg")
    ensures name[..|name| - 4] == LastSegment(url)
  {
    var segment := LastSegment(url);
    var name := segment + ".jpg";
    assert name[..|name| - 4] == segment && name[|name| - 4..] == ".jpg";
    assert forall i :: 0 <= i < |name| ==> name[i] != '/' by {
      forall i | 0 <= i < |name| ensures name[i] != '/' {
        if i < |segment| { assert name[i] == segment[i]; }
      }
    }
    name
  }

  /** The address under which the repository serves the file at `path` of `branch`. */
  function RawUrl(repository: string, branch: string, path: string): string {
    "https://raw.githubusercontent.com/" + repository + "/" + branch + "/" + path
  }

  /** Text ending in ".jpg" still ends in ".jpg" behind any prefix. */
  lemma JpgBehind(prefix: string, s: string)
    requires EndsWith(s, ".jpg")
    ensures EndsWith(prefix + s, ".jpg")
  {
    var t := prefix + s;
    assert t[|t| - 4..] == s[|s| - 4..];
  }

  /** The name a cover is saved under is its last segment with ".jpg" appended. */
  lemma FileNameIsSegment(url: string)
    ensures FileName(url) == LastSegment(url) + ".jpg"
  {
    var name := FileName(url);
    assert name == name[..|name| - 4] + name[|name| - 4..];
  }

  /**
   * The cover a page gets: an official-account cover ending in "/0" gets
   * ".jpg" appended; a web cover that does not end in ".jpg" is replaced by
   * the copy downloaded into the repository's "cover" directory.
   */
  function CoverFor(author: string, cover: string, repository: string, branch: string): (r: string)
    ensures StartsWith(r, "http") ==> EndsWith(r, ".jpg")
    ensures !StartsWith(cover, "http") ==> r == cover || r == cover + ".jpg"
    ensures var fixed := if author == OfficialAccountAuthor && EndsWith(cover, "/0") then cover + ".jpg" else cover;
      && (StartsWith(fixed, "http") && !EndsWith(fixed, ".jpg") ==>
            r == RawUrl(repository, branch, "cover/" + FileName(fixed)))
      && (!StartsWith(fixed, "http") || EndsWith(fixed, ".jpg") ==> r == fixed)
  {
    var fixed := if author == OfficialAccountAuthor && EndsWith(cover, "/0") then cover + ".jpg" else cover;
    if StartsWith(fixed, "http") && !EndsWith(fixed, ".jpg")
    then
      JpgBehind("cover/", FileName(fixed));
      JpgBehind("https://raw.githubusercontent.com/" + repository + "/" + branch + "/", "cover/" + FileName(fixed));
      RawUrl(repository, branch, "cover/" + FileName(fixed))
    else fixed
  }

  /** An official-account web cover ending in "/0" is kept with ".jpg" appended, and never downloaded. */
  lemma OfficialAccountCover(cover: string, repository: string, branch: string)
    requires StartsWith(cover, "http") && EndsWith(cover, "/0")
    ensures CoverFor(OfficialAccountAuthor, cover, repository, branch) == cover + ".jpg"
  {
    var fixed := cover + ".jpg";
    assert fixed[|fixed| - 4..] == ".jpg";
    assert fixed[..4] == cover[..4];
  }

  /** Any other author's cover ending in "/0" is downloaded when it is on the web. */
  lemma OtherAuthorCoverDownloaded(author: string, cover: string, repository: string, branch: string)
    requires author != OfficialAccountAuthor && StartsWith(cover, "http") && EndsWith(cover, "/0")
    ensures CoverFor(author, cover, repository, branch) == RawUrl(repository, branch, "cover/" + FileName(cover))
  {
    assert cover[|cover| - 1] == '0';
    assert !EndsWith(cover, ".jpg");
  }

  /** A web cover is its own icon; anything else gets the bookmark icon. */
  function IconFor(cover: string): string {
    if StartsWith(cover, "http") then cover else BookmarkIconUrl
  }

  /** The page properties for a book, given its cover, sort value and read-progress record. */
  function BookPropsOf(cover: string, sort: int, info: Option<ReadInfo>, now: int): (p: BookProps)
    ensures p.sort == sort && p.cover == cover
    ensures StartsWith(cover, "http") ==> p.icon == cover
    ensures !StartsWith(cover, "http") ==> p.icon == BookmarkIconUrl
    ensures p.reading.Some? <==> info.Some?
    ensures info.Some? ==> p.reading.value == ReadingStateOf(info.value, now)
  {
    BookProps(sort, cover, IconFor(cover), if info.Some? then Some(ReadingStateOf(info.value, now)) else None)
  }
}
