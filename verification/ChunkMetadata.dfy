/** Mapping a chunk back to the pages and the section it came from. */
module ChunkMetadata {
  import opened Text
  import opened SectionDetection

  datatype Page = Page(number: nat, text: string)

  datatype PageRange = PageRange(start: nat, end: nat)

  /** Where page k starts when every page is followed by a two-character separator. */
  function PageOffset(pages: seq<Page>, k: nat): nat
    requires k <= |pages|
  {
    if k == 0 then 0 else PageOffset(pages, k - 1) + |pages[k - 1].text| + 2
  }

  lemma {:induction false} PageOffsetGrows(pages: seq<Page>, j: nat, k: nat)
    requires j <= k <= |pages|
    ensures PageOffset(pages, j) + 2 * (k - j) <= PageOffset(pages, k)
    decreases k
  {
    if j < k {
      PageOffsetGrows(pages, j, k - 1);
    }
  }

  /** Position pos of the text belongs to page k or to the separator that follows it. */
  ghost predicate OnPage(pages: seq<Page>, pos: int, k: nat) {
    k < |pages| && PageOffset(pages, k) <= pos < PageOffset(pages, k + 1)
  }

  /** A position belongs to at most one page. */
  lemma OnePage(pages: seq<Page>, pos: int, j: nat, k: nat)
    requires OnPage(pages, pos, j) && OnPage(pages, pos, k)
    ensures j == k
  {
    if j < k {
      PageOffsetGrows(pages, j + 1, k);
    } else if k < j {
      PageOffsetGrows(pages, k + 1, j);
    }
  }

  /** The first page k with pos < PageOffset(k + 1), or the number of pages. */
  function PageAt(pages: seq<Page>, pos: int, k: nat): (r: nat)
    requires k <= |pages|
    ensures k <= r <= |pages|
    decreases |pages| - k
  {
    if k == |pages| || pos < PageOffset(pages, k + 1) then k else PageAt(pages, pos, k + 1)
  }

  lemma {:induction false} PageAtFinds(pages: seq<Page>, pos: int, k: nat)
    requires k <= |pages| && PageOffset(pages, k) <= pos
    ensures var r := PageAt(pages, pos, k);
            if r < |pages| then OnPage(pages, pos, r) else PageOffset(pages, |pages|) <= pos
    decreases |pages| - k
  {
    if k < |pages| && PageOffset(pages, k + 1) <= pos {
      PageAtFinds(pages, pos, k + 1);
    }
  }

  function PageNumberAt(pages: seq<Page>, pos: int, default: nat): nat {
    var k := PageAt(pages, pos, 0);
    if k < |pages| then pages[k].number else default
  }

  function OrElse(number: nat, default: nat): nat {
    if number == 0 then default else number
  }

  /** The range reported for a chunk: the page of its first character and the page of its last
      one (of position 0 when the chunk is empty), in the place where the text first has it. */
  function Range(chunk: string, fullText: string, pages: seq<Page>): PageRange {
    var start := FindFrom(fullText, chunk, 0);
    if pages == [] || start < 0 then PageRange(0, 0)
    else
      var last := if start + |chunk| == 0 then 0 else start + |chunk| - 1;
      var first := PageNumberAt(pages, start, 1);
      var end := PageNumberAt(pages, last, first);
      var pageStart := OrElse(first, 1);
      PageRange(pageStart, OrElse(end, pageStart))
  }

  method FindPageRange(chunk: string, fullText: string, pages: seq<Page>) returns (r: PageRange)
    ensures r == Range(chunk, fullText, pages)
  {
    if pages == [] {
      return PageRange(0, 0);
    }
    var pageStart, pageEnd := 0, 0;
    var chunkStart := FindFrom(fullText, chunk, 0);
    if chunkStart < 0 {
      return PageRange(0, 0);
    }

    var charPos := 0;
    var i := 0;
    while i < |pages|
      invariant i <= |pages| && charPos == PageOffset(pages, i) && charPos <= chunkStart
      invariant PageAt(pages, chunkStart, 0) == PageAt(pages, chunkStart, i)
    {
      var pageLen := |pages[i].text| + 2;
      if charPos <= chunkStart < charPos + pageLen {
        pageStart := pages[i].number;
        break;
      }
      charPos := charPos + pageLen;
      i := i + 1;
    }
    if i == |pages| {
      pageStart := 1;
    }

    var chunkEnd := chunkStart + |chunk|;
    ghost var last := if chunkEnd == 0 then 0 else chunkEnd - 1;
    charPos := 0;
    i := 0;
    while i < |pages|
      invariant i <= |pages| && charPos == PageOffset(pages, i) && (i > 0 ==> charPos < chunkEnd)
      invariant PageAt(pages, last, 0) == PageAt(pages, last, i)
    {
      var pageLen := |pages[i].text| + 2;
      if charPos <= chunkEnd <= charPos + pageLen {
        pageEnd := pages[i].number;
        break;
      }
      charPos := charPos + pageLen;
      i := i + 1;
    }
    if i == |pages| {
      pageEnd := pageStart;
    }

    if pageStart == 0 {
      pageStart := 1;
    }
    if pageEnd == 0 {
      pageEnd := pageStart;
    }
    r := PageRange(pageStart, pageEnd);
  }

  function PageTexts(pages: seq<Page>): seq<string> {
    if pages == [] then [] else [pages[0].text] + PageTexts(pages[1..])
  }

  lemma {:induction false} PageOffsetShift(pages: seq<Page>, k: nat)
    requires 0 < k <= |pages|
    ensures PageOffset(pages, k) == |pages[0].text| + 2 + PageOffset(pages[1..], k - 1)
  {
    if k > 1 {
      PageOffsetShift(pages, k - 1);
    }
  }

  /** In a text made of the pages joined by blank lines, page k stands at PageOffset(k). */
  lemma {:induction false} PageStandsAtOffset(pages: seq<Page>, fullText: string, k: nat)
    requires k < |pages| && fullText == Join("\n\n", PageTexts(pages))
    ensures |fullText| + 2 == PageOffset(pages, |pages|)
    ensures PageOffset(pages, k) + |pages[k].text| <= |fullText|
    ensures fullText[PageOffset(pages, k)..][..|pages[k].text|] == pages[k].text
    decreases |pages|
  {
    if |pages| > 1 {
      var rest := pages[1..];
      var text' := Join("\n\n", PageTexts(rest));
      assert PageTexts(pages)[1..] == PageTexts(rest);
      assert fullText == pages[0].text + "\n\n" + text';
      PageOffsetShift(pages, |pages|);
      if k > 0 {
        PageStandsAtOffset(rest, text', k - 1);
        PageOffsetShift(pages, k);
        assert fullText[|pages[0].text| + 2..] == text';
        assert fullText[PageOffset(pages, k)..] == text'[PageOffset(rest, k - 1)..];
      } else {
        PageStandsAtOffset(rest, text', 0);
      }
    } else {
      assert PageTexts(pages) == [pages[0].text];
    }
  }

  lemma JoinedLength(pages: seq<Page>, fullText: string)
    requires pages != [] && fullText == Join("\n\n", PageTexts(pages))
    ensures |fullText| + 2 == PageOffset(pages, |pages|)
  {
    PageStandsAtOffset(pages, fullText, 0);
  }

  lemma HolderFound(pages: seq<Page>, pos: nat)
    requires pos < PageOffset(pages, |pages|)
    ensures OnPage(pages, pos, PageAt(pages, pos, 0))
  {
    PageAtFinds(pages, pos, 0);
  }

  ghost predicate Numbered(pages: seq<Page>) {
    forall i :: 0 <= i < |pages| ==> pages[i].number > 0
  }

  lemma RangeOfPages(chunk: string, fullText: string, pages: seq<Page>, j: nat, k: nat)
    requires pages != [] && Numbered(pages) && chunk != "" && FindFrom(fullText, chunk, 0) >= 0
    requires j == PageAt(pages, FindFrom(fullText, chunk, 0), 0) < |pages|
    requires k == PageAt(pages, FindFrom(fullText, chunk, 0) + |chunk| - 1, 0) < |pages|
    ensures Range(chunk, fullText, pages) == PageRange(pages[j].number, pages[k].number)
  {
    assert pages[j].number > 0 && pages[k].number > 0;
  }

  /** When the text is the pages joined by blank lines and page numbers are positive, a chunk
      found in it gets the numbers of the pages that hold the first and the last character of
      its first occurrence. */
  lemma RangeHoldsChunk(chunk: string, fullText: string, pages: seq<Page>) returns (start: nat, j: nat, k: nat)
    requires fullText == Join("\n\n", PageTexts(pages)) && pages != [] && Numbered(pages)
    requires chunk != "" && FindFrom(fullText, chunk, 0) >= 0
    ensures OccursAt(fullText, start, chunk)
    ensures forall i :: 0 <= i < start ==> !OccursAt(fullText, i, chunk)
    ensures OnPage(pages, start, j) && OnPage(pages, start + |chunk| - 1, k)
    ensures Range(chunk, fullText, pages) == PageRange(pages[j].number, pages[k].number)
  {
    start := FindFrom(fullText, chunk, 0);
    FindIsFirst(fullText, chunk, 0);
    JoinedLength(pages, fullText);
    HolderFound(pages, start);
    HolderFound(pages, start + |chunk| - 1);
    j, k := PageAt(pages, start, 0), PageAt(pages, start + |chunk| - 1, 0);
    RangeOfPages(chunk, fullText, pages, j, k);
  }

  lemma {:induction false} PageAtGrows(pages: seq<Page>, p: int, q: int, k: nat)
    requires k <= |pages| && p <= q
    ensures PageAt(pages, p, k) <= PageAt(pages, q, k)
    decreases |pages| - k
  {
    if k < |pages| && PageOffset(pages, k + 1) <= p {
      PageAtGrows(pages, p, q, k + 1);
    }
  }

  /** Whatever the text is, if page numbers do not decrease the range runs forwards. */
  lemma RangeRunsForwards(chunk: string, fullText: string, pages: seq<Page>)
    requires forall i, j :: 0 <= i < j < |pages| ==> pages[i].number <= pages[j].number
    ensures Range(chunk, fullText, pages).start <= Range(chunk, fullText, pages).end
  {
    var start := FindFrom(fullText, chunk, 0);
    if start >= 0 {
      var last := if start + |chunk| == 0 then 0 else start + |chunk| - 1;
      if start <= last {
        PageAtGrows(pages, start, last, 0);
      }
    }
  }

  /** No range is reported exactly when there are no pages or the text does not have the chunk. */
  lemma NoRangeIff(chunk: string, fullText: string, pages: seq<Page>)
    ensures Range(chunk, fullText, pages) == PageRange(0, 0)
       <==> pages == [] || forall i: nat :: i <= |fullText| ==> !OccursAt(fullText, i, chunk)
  {
    FindIsFirst(fullText, chunk, 0);
  }

  /** The number reported for a position: that of its page, and a default for page number 0 and for a
      position past all pages. */
  ghost predicate ReportedFor(pages: seq<Page>, pos: nat, default: nat, number: nat) {
    && (forall k: nat :: ReportsPage(pages, pos, default, number, k))
    && (pos >= PageOffset(pages, |pages|) ==> number == default)
  }

  ghost predicate ReportsPage(pages: seq<Page>, pos: nat, default: nat, number: nat, k: nat) {
    OnPage(pages, pos, k) ==> number == OrElse(pages[k].number, default)
  }

  lemma PageNumberReported(pages: seq<Page>, pos: nat, other: nat, default: nat)
    requires other == default || other == 0
    ensures ReportedFor(pages, pos, default, OrElse(PageNumberAt(pages, pos, other), default))
  {
    forall k: nat | OnPage(pages, pos, k)
      ensures k == PageAt(pages, pos, 0)
    {
      PageIsFound(pages, pos, k);
    }
    PageAtFinds(pages, pos, 0);
    if PageAt(pages, pos, 0) < |pages| {
      PageOffsetGrows(pages, PageAt(pages, pos, 0) + 1, |pages|);
    }
  }

  lemma PageIsFound(pages: seq<Page>, pos: nat, k: nat)
    requires OnPage(pages, pos, k)
    ensures k == PageAt(pages, pos, 0)
  {
    PageAtFinds(pages, pos, 0);
    if PageAt(pages, pos, 0) < |pages| {
      OnePage(pages, pos, k, PageAt(pages, pos, 0));
    } else {
      PageOffsetGrows(pages, k + 1, |pages|);
    }
  }

  lemma RangeIs(chunk: string, fullText: string, pages: seq<Page>, start: nat, first: nat)
    requires pages != [] && chunk != "" && start == FindFrom(fullText, chunk, 0) && first == PageNumberAt(pages, start, 1)
    ensures var pageStart := OrElse(first, 1);
            Range(chunk, fullText, pages) == PageRange(pageStart, OrElse(PageNumberAt(pages, start + |chunk| - 1, first), pageStart))
  {
  }

  lemma NumbersReported(pages: seq<Page>, start: nat, last: nat)
    ensures var first := PageNumberAt(pages, start, 1);
            var pageStart := OrElse(first, 1);
            ReportedFor(pages, start, 1, pageStart)
            && ReportedFor(pages, last, pageStart, OrElse(PageNumberAt(pages, last, first), pageStart))
  {
    var first := PageNumberAt(pages, start, 1);
    PageNumberReported(pages, start, 1, 1);
    PageNumberReported(pages, last, first, OrElse(first, 1));
  }

  /** Whatever the text and the page numbers are, a chunk that is found gets the number of the page of
      its first character, or 1, and that of the page of its last one, or the same number again. */
  lemma RangeByPages(chunk: string, fullText: string, pages: seq<Page>, start: nat)
    requires pages != [] && chunk != "" && start == FindFrom(fullText, chunk, 0)
    ensures var r := Range(chunk, fullText, pages);
            ReportedFor(pages, start, 1, r.start) && ReportedFor(pages, start + |chunk| - 1, r.start, r.end)
  {
    NumbersReported(pages, start, start + |chunk| - 1);
    RangeIs(chunk, fullText, pages, start, PageNumberAt(pages, start, 1));
  }

  // ----- Section title -----

  /** The sections listed before the first one that starts after position at. */
  function Before(sections: seq<Section>, at: int): seq<Section> {
    if sections == [] || sections[0].start > at then [] else [sections[0]] + Before(sections[1..], at)
  }

  /** They are the longest stretch at the front of the list in which no section starts later. */
  lemma {:induction false} BeforeIsLongest(sections: seq<Section>, at: int)
    ensures var b := Before(sections, at);
            && b <= sections && (forall i :: 0 <= i < |b| ==> sections[i].start <= at)
            && (|b| < |sections| ==> sections[|b|].start > at)
  {
    if sections != [] && sections[0].start <= at {
      BeforeIsLongest(sections[1..], at);
      assert [sections[0]] + sections[1..] == sections;
    }
  }

  /** Section i starts latest, and is the first listed of those that do. */
  ghost predicate IsLatest(sections: seq<Section>, i: int) {
    && 0 <= i < |sections|
    && (forall j :: 0 <= j < |sections| ==> sections[j].start <= sections[i].start)
    && (forall j :: 0 <= j < i ==> sections[j].start < sections[i].start)
  }

  ghost predicate Ordered(sections: seq<Section>) {
    forall i, j :: 0 <= i < j < |sections| ==> sections[i].start <= sections[j].start
  }

  /** For sections listed in order, those considered are all that start by position at. */
  lemma {:induction false} BeforeOfOrdered(sections: seq<Section>, at: int)
    requires Ordered(sections)
    ensures Before(sections, at) <= sections
    ensures forall i :: 0 <= i < |sections| ==> (sections[i].start <= at <==> i < |Before(sections, at)|)
  {
    if sections != [] {
      BeforeOfOrdered(sections[1..], at);
      if sections[0].start <= at {
        var b := Before(sections[1..], at);
        assert sections == [sections[0]] + sections[1..];
        assert forall i :: 1 <= i < |sections| ==> sections[i] == sections[1..][i - 1];
      }
    }
  }

  /** The title reported is that of the latest section before the chunk's first occurrence. */
  method FindSectionTitle(chunk: string, fullText: string, sections: seq<Section>) returns (title: string)
    ensures var considered := Before(sections, FindFrom(fullText, chunk, 0));
            if considered == [] then title == ""
            else exists i :: IsLatest(considered, i) && title == considered[i].title
  {
    if sections == [] {
      return "";
    }
    var chunkStart := FindFrom(fullText, chunk, 0);
    if chunkStart < 0 {
      return "";
    }
    title := "";
    ghost var best := -1;
    ghost var done: seq<Section> := [];
    var bestDistance := -1;
    for i := 0 to |sections|
      invariant Remains(Before(sections, chunkStart), done, Before(sections[i..], chunkStart))
      invariant if done == [] then title == "" && bestDistance == -1
                else IsLatest(done, best) && title == done[best].title && bestDistance == chunkStart - done[best].start >= 0
    {
      var section := sections[i];
      assert sections[i..][1..] == sections[i + 1..];
      if section.start <= chunkStart {
        var distance := chunkStart - section.start;
        Advance(Before(sections, chunkStart), done, [section], Before(sections[i + 1..], chunkStart));
        done := done + [section];
        if bestDistance < 0 || distance < bestDistance {
          bestDistance := distance;
          title := section.title;
          best := |done| - 1;
        }
      } else {
        break;
      }
    }
    assert done == Before(sections, chunkStart);
  }
}
