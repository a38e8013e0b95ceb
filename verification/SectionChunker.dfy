/** The section-level chunker: merging, splitting and overlapping the sections of a document. */
module SectionChunker {
  import opened Options
  import opened TextOverlap
  import opened Text
  import opened Merging
  import opened Optimality
  import opened Packing
  import opened SectionDetection
  import opened SectionSlicing
  import opened Sorting

  const TARGET_TOKENS: nat := 2000
  const MIN_TOKENS: nat := 500
  const MAX_TOKENS: nat := 3000
  const OVERLAP_TOKENS: nat := 100

  // ----- Splitting a large section -----

  function LargeSectionGroups(text: string, tokens: string -> nat, maxTokens: nat): seq<seq<string>> {
    Greedy(tokens, maxTokens, [], SplitOn("\n\n", text))
  }

  function TitleEach(title: string, texts: seq<string>): (r: seq<Titled>)
    ensures |r| == |texts|
    ensures forall i :: 0 <= i < |r| ==> r[i] == Titled(title, texts[i])
  {
    seq(|texts|, i requires 0 <= i < |texts| => Titled(title, texts[i]))
  }

  function LargeSection(text: string, tokens: string -> nat, maxTokens: nat, title: string): seq<Titled> {
    TitleEach(title, JoinEach("\n\n", LargeSectionGroups(text, tokens, maxTokens)))
  }

  method SplitLargeSection(sectionText: string, tokens: string -> nat, maxTokens: nat, title: string) returns (chunks: seq<Titled>)
    ensures chunks == LargeSection(sectionText, tokens, maxTokens, title)
  {
    var paragraphs := SplitOn("\n\n", sectionText);
    chunks := [];
    var current: seq<string> := [];
    var currentTokens := 0;
    ghost var expected := Greedy(tokens, maxTokens, [], paragraphs);
    ghost var groups: seq<seq<string>> := [];
    for i := 0 to |paragraphs|
      invariant currentTokens == Weight(tokens, current)
      invariant i > 0 ==> current != []
      invariant chunks == TitleEach(title, JoinEach("\n\n", groups))
      invariant Remains(expected, groups, Greedy(tokens, maxTokens, current, paragraphs[i..]))
    {
      var para := paragraphs[i];
      var paraTokens := tokens(para);
      assert paragraphs[i..][1..] == paragraphs[i + 1..];
      if currentTokens + paraTokens > maxTokens && current != [] {
        Advance(expected, groups, [current], Greedy(tokens, maxTokens, [para], paragraphs[i + 1..]));
        chunks := chunks + [Titled(title, Join("\n\n", current))];
        groups := groups + [current];
        current := [para];
        currentTokens := paraTokens;
      } else {
        WeightSnoc(tokens, current, para);
        current := current + [para];
        currentTokens := currentTokens + paraTokens;
      }
    }
    if current != [] {
      Advance(expected, groups, [current], []);
      chunks := chunks + [Titled(title, Join("\n\n", current))];
      groups := groups + [current];
    }
    assert groups == expected;
    if chunks == [] {
      chunks := [Titled(title, sectionText)];
    }
  }

  lemma {:induction false} TextsOfTitleEach(title: string, texts: seq<string>)
    ensures Texts(TitleEach(title, texts)) == texts
  {
    if texts != [] {
      TextsOfTitleEach(title, texts[1..]);
      assert TitleEach(title, texts)[1..] == TitleEach(title, texts[1..]);
    }
  }

  /** Joining the chunks of a large section with a blank line gives the section back exactly;
      each carries the section's title; and no cut of its paragraphs into runs that fit has
      fewer chunks. */
  lemma LargeSectionIsExact(text: string, tokens: string -> nat, maxTokens: nat, title: string, alt: seq<seq<string>>)
    ensures var chunks := LargeSection(text, tokens, maxTokens, title);
            && Join("\n\n", Texts(chunks)) == text
            && (forall i :: 0 <= i < |chunks| ==> chunks[i].title == title)
            && (Cutting(tokens, maxTokens, SplitOn("\n\n", text), alt) ==> |chunks| <= |alt|)
  {
    var paragraphs := SplitOn("\n\n", text);
    var groups := LargeSectionGroups(text, tokens, maxTokens);
    GreedyFromStart(tokens, maxTokens, paragraphs);
    TextsOfTitleEach(title, JoinEach("\n\n", groups));
    JoinOfJoins("\n\n", groups);
    JoinOfSplit("\n\n", text);
    if Cutting(tokens, maxTokens, paragraphs, alt) {
      GreedyIsOptimal(tokens, maxTokens, paragraphs, alt);
    }
  }

  // ----- Merging -----

  function SectionTokens(tokens: string -> nat): Titled -> nat {
    (t: Titled) => tokens(t.text)
  }

  /** The title a merged chunk ends up with: the first one that is not empty. */
  function MergedTitle(items: seq<Titled>): string {
    if items == [] then "" else if items[0].title != "" then items[0].title else MergedTitle(items[1..])
  }

  lemma {:induction false} MergedTitleSnoc(items: seq<Titled>, t: Titled)
    ensures MergedTitle(items + [t]) == if MergedTitle(items) == "" then t.title else MergedTitle(items)
  {
    if items == [] {
      assert items + [t] == [t];
    } else {
      assert (items + [t])[1..] == items[1..] + [t];
      MergedTitleSnoc(items[1..], t);
    }
  }

  /** A merged chunk carries the title of its first section exactly when that title is not
      empty, or every title in the chunk is empty. */
  lemma {:induction false} MergedTitleIsFirst(items: seq<Titled>)
    requires items != []
    ensures MergedTitle(items) == items[0].title <==>
            items[0].title != "" || forall i :: 0 <= i < |items| ==> items[i].title == ""
  {
    if items[0].title == "" && |items| > 1 {
      MergedTitleIsFirst(items[1..]);
      if MergedTitle(items) == "" {
        AllTitlesEmpty(items);
      }
    }
  }

  lemma {:induction false} AllTitlesEmpty(items: seq<Titled>)
    ensures MergedTitle(items) == "" <==> forall i :: 0 <= i < |items| ==> items[i].title == ""
  {
    if items != [] {
      AllTitlesEmpty(items[1..]);
      if forall i :: 0 <= i < |items| ==> items[i].title == "" {
        assert forall i :: 0 <= i < |items| - 1 ==> items[1..][i] == items[i + 1];
      } else if items[0].title == "" {
        var i :| 0 <= i < |items| && items[i].title != "";
        assert items[1..][i - 1] == items[i];
      }
    }
  }

  function RenderSection(b: Block<Titled>, tokens: string -> nat, maxTokens: nat): seq<Titled> {
    match b
    case Merged(items) => [Titled(MergedTitle(items), Join("\n\n", Texts(items)))]
    case Oversized(item) => LargeSection(item.text, tokens, maxTokens, item.title)
  }

  function RenderSections(bs: seq<Block<Titled>>, tokens: string -> nat, maxTokens: nat): seq<Titled> {
    if bs == [] then [] else RenderSection(bs[0], tokens, maxTokens) + RenderSections(bs[1..], tokens, maxTokens)
  }

  /** A loop that still owes the rendering of a block and later ones emits the block. */
  lemma EmitSection(expected: seq<Titled>, chunks: seq<Titled>, b: Block<Titled>, later: seq<Block<Titled>>,
                    tokens: string -> nat, maxTokens: nat)
    requires Remains(expected, chunks, RenderSections([b] + later, tokens, maxTokens))
    ensures Remains(expected, chunks + RenderSection(b, tokens, maxTokens), RenderSections(later, tokens, maxTokens))
  {
    assert ([b] + later)[1..] == later;
    Advance(expected, chunks, RenderSection(b, tokens, maxTokens), RenderSections(later, tokens, maxTokens));
  }

  lemma TextsSnoc(items: seq<Titled>, t: Titled)
    ensures Texts(items + [t]) == Texts(items) + [t.text]
  {
    TextsConcat(items, [t]);
    assert Texts([t]) == [t.text];
  }

  method MergeSections(sections: seq<Titled>, tokens: string -> nat, lim: Limits) returns (chunks: seq<Titled>)
    requires lim.min >= 1
    ensures chunks == RenderSections(Blocks(SectionTokens(tokens), lim, [], sections), tokens, lim.max)
    ensures exists bs :: Packs(SectionTokens(tokens), lim, sections, bs) && chunks == RenderSections(bs, tokens, lim.max)
  {
    chunks := [];
    var currentTitle := "";
    var currentParts: seq<string> := [];
    var currentTokens := 0;
    ghost var w := SectionTokens(tokens);
    ghost var current: seq<Titled> := [];
    ghost var expected := RenderSections(Blocks(w, lim, [], sections), tokens, lim.max);
    for i := 0 to |sections|
      invariant currentTokens == Weight(w, current)
      invariant |currentParts| == |current| && currentParts == Texts(current)
      invariant current != [] ==> currentTitle == MergedTitle(current)
      invariant Remains(expected, chunks, RenderSections(Blocks(w, lim, current, sections[i..]), tokens, lim.max))
    {
      var title, text := sections[i].title, sections[i].text;
      var sectionTokens := tokens(text);
      ghost var rest := sections[i + 1..];
      assert sections[i..][1..] == rest;
      if sectionTokens == 0 {
        continue;
      }
      if sectionTokens > lim.max {
        ghost var later := Blocks(w, lim, [], rest);
        if currentParts != [] {
          EmitSection(expected, chunks, Merged(current), [Oversized(sections[i])] + later, tokens, lim.max);
          chunks := chunks + [Titled(currentTitle, Join("\n\n", currentParts))];
          currentParts := [];
          currentTokens := 0;
          current := [];
        }
        EmitSection(expected, chunks, Oversized(sections[i]), later, tokens, lim.max);
        var subSections := SplitLargeSection(text, tokens, lim.max, title);
        chunks := chunks + subSections;
        continue;
      }
      if currentTokens + sectionTokens > lim.target && currentTokens >= lim.min {
        EmitSection(expected, chunks, Merged(current), Blocks(w, lim, [sections[i]], rest), tokens, lim.max);
        chunks := chunks + [Titled(currentTitle, Join("\n\n", currentParts))];
        currentParts := [text];
        currentTitle := title;
        currentTokens := sectionTokens;
        current := [sections[i]];
      } else {
        WeightSnoc(w, current, sections[i]);
        MergedTitleSnoc(current, sections[i]);
        TextsSnoc(current, sections[i]);
        if currentParts == [] || currentTitle == "" {
          currentTitle := title;
        }
        currentParts := currentParts + [text];
        currentTokens := currentTokens + sectionTokens;
        current := current + [sections[i]];
      }
    }
    if currentParts != [] {
      EmitSection(expected, chunks, Merged(current), [], tokens, lim.max);
      chunks := chunks + [Titled(currentTitle, Join("\n\n", currentParts))];
    }
    BlocksPack(w, lim, sections);
  }

  // ----- Overlap -----

  const BREAK_COUNT := 6

  function Break(i: nat): string {
    match i
    case 0 => "\n\n"
    case 1 => "\n"
    case 2 => ". "
    case 3 => "\U{3002}"
    case 4 => "\U{ff01}"
    case _ => "\U{ff1f}"
  }

  function TextEnd(text: string, tokenCount: nat): string {
    CutAfter(LastChars(text, tokenCount * 3), Break, BREAK_COUNT, 10, 0)
  }

  method GetTextEnd(text: string, tokenCount: nat) returns (r: string)
    ensures r == TextEnd(text, tokenCount)
  {
    if text == "" {
      var _ := TextEndIsSuffix(text, tokenCount);
      return "";
    }
    var overlap := TakeEnd(text, tokenCount * 3);
    r := CutAtSeparator(overlap, Break, BREAK_COUNT, 10);
  }

  /** The breaks in the order they are tried. */
  lemma BreaksInOrder()
    ensures ["\n\n", "\n", ". ", "\U{3002}", "\U{ff01}", "\U{ff1f}"]
         == [Break(0), Break(1), Break(2), Break(3), Break(4), Break(5)]
    ensures BREAK_COUNT == 6
  {
  }

  /** Among the last 3 * tokenCount characters, the overlap is what follows the first occurrence of
      the first break found past the tenth of them, or all of them. */
  lemma TextEndIsCut(text: string, tokenCount: nat) returns (n: nat, idx: int)
    ensures IsCut(LastChars(text, tokenCount * 3), Break, BREAK_COUNT, 10, 0, n, idx, TextEnd(text, tokenCount))
  {
    n, idx := CutIsAfterFirst(LastChars(text, tokenCount * 3), Break, BREAK_COUNT, 10, 0);
  }

  function OverlapText(prev: string, text: string, overlapTokens: nat): string {
    TextEnd(prev, overlapTokens) + "\n\n" + text
  }

  function OverlapSection(prev: Titled, t: Titled, overlapTokens: nat): Titled {
    Titled(t.title, OverlapText(prev.text, t.text, overlapTokens))
  }

  /** Chunk i with its overlap: the first has none. */
  function OverlappedSection(chunks: seq<Titled>, overlapTokens: nat, i: nat): Titled
    requires i < |chunks|
  {
    if i == 0 then chunks[0] else OverlapSection(chunks[i - 1], chunks[i], overlapTokens)
  }

  function WithSectionOverlap(chunks: seq<Titled>, overlapTokens: nat): (r: seq<Titled>)
    ensures |r| == |chunks|
  {
    if overlapTokens > 0 && |chunks| > 1 then
      seq(|chunks|, i requires 0 <= i < |chunks| => OverlappedSection(chunks, overlapTokens, i))
    else chunks
  }

  lemma OverlappedSectionAt(chunks: seq<Titled>, overlapTokens: nat, i: nat)
    requires i < |chunks| && overlapTokens > 0
    ensures WithSectionOverlap(chunks, overlapTokens)[i] == OverlappedSection(chunks, overlapTokens, i)
  {
  }

  /** Overlap keeps each chunk's title and text, after a blank line and an exact suffix of the
      previous plain chunk of at most 3 * overlapTokens characters. */
  lemma OverlapKeepsSections(chunks: seq<Titled>, overlapTokens: nat, i: nat) returns (from: nat)
    requires 0 < i < |chunks| && overlapTokens > 0
    ensures from <= |chunks[i - 1].text| <= from + 3 * overlapTokens
    ensures WithSectionOverlap(chunks, overlapTokens)[i]
         == Titled(chunks[i].title, chunks[i - 1].text[from..] + "\n\n" + chunks[i].text)
  {
    var text := chunks[i - 1].text;
    from := TextEndIsSuffix(text, overlapTokens);
    OverlappedSectionAt(chunks, overlapTokens, i);
  }

  lemma TextEndIsSuffix(text: string, tokenCount: nat) returns (from: nat)
    ensures from <= |text| <= from + 3 * tokenCount && TextEnd(text, tokenCount) == text[from..]
  {
    var last := LastChars(text, tokenCount * 3);
    var k := CutIsSuffix(last, Break, BREAK_COUNT, 10);
    from := |text| - |last| + k;
    assert last[k..] == text[from..];
  }

  method PrependTextEnd(prev: string, text: string, overlapTokens: nat) returns (r: string)
    ensures r == OverlapText(prev, text, overlapTokens)
  {
    var overlap := GetTextEnd(prev, overlapTokens);
    r := overlap + "\n\n" + text;
  }

  method AddSectionOverlap(chunks: seq<Titled>, overlapTokens: nat) returns (overlapped: seq<Titled>)
    requires overlapTokens > 0 && |chunks| > 1
    ensures overlapped == WithSectionOverlap(chunks, overlapTokens)
  {
    ghost var expected := WithSectionOverlap(chunks, overlapTokens);
    overlapped := [chunks[0]];
    FirstOverlapped(chunks, overlapTokens);
    for i := 1 to |chunks|
      invariant overlapped == expected[..i]
    {
      var text := PrependTextEnd(chunks[i - 1].text, chunks[i].text, overlapTokens);
      NextOverlapped(chunks, overlapTokens, i, text);
      overlapped := overlapped + [Titled(chunks[i].title, text)];
    }
    assert expected[..|expected|] == expected;
  }

  lemma FirstOverlapped(chunks: seq<Titled>, overlapTokens: nat)
    requires overlapTokens > 0 && |chunks| > 1
    ensures [chunks[0]] == WithSectionOverlap(chunks, overlapTokens)[..1]
  {
    OverlappedSectionAt(chunks, overlapTokens, 0);
  }

  lemma NextOverlapped(chunks: seq<Titled>, overlapTokens: nat, i: nat, text: string)
    requires overlapTokens > 0 && 0 < i < |chunks| && text == OverlapText(chunks[i - 1].text, chunks[i].text, overlapTokens)
    ensures WithSectionOverlap(chunks, overlapTokens)[..i] + [Titled(chunks[i].title, text)]
         == WithSectionOverlap(chunks, overlapTokens)[..i + 1]
  {
    OverlappedSectionAt(chunks, overlapTokens, i);
    TakeNext(WithSectionOverlap(chunks, overlapTokens), i);
  }

  // ----- The chunker -----

  function SectionLimits(target: Option<nat>, min: Option<nat>, max: Option<nat>): (lim: Limits)
    ensures lim.target >= 1 && lim.min >= 1 && lim.max >= 1
  {
    Limits(OrDefault(target, TARGET_TOKENS), OrDefault(min, MIN_TOKENS), OrDefault(max, MAX_TOKENS))
  }

  /** The chunks before overlap is added. */
  function PlainSections(text: string, sections: seq<Section>, tokens: string -> nat, lim: Limits): seq<Titled> {
    RenderSections(Blocks(SectionTokens(tokens), lim, [], SectionTexts(text, WithDefault(sections))), tokens, lim.max)
  }

  function WithDefault(sections: seq<Section>): (r: seq<Section>)
    ensures r != []
  {
    if sections == [] then [Section("Document", 1, 0)] else sections
  }

  method ChunkSectionLevel(text: string, sections: seq<Section>, tokens: string -> nat,
                           target: Option<nat>, min: Option<nat>, max: Option<nat>, overlap: Option<nat>)
      returns (chunks: seq<Titled>)
    ensures var lim := SectionLimits(target, min, max);
            chunks == WithSectionOverlap(PlainSections(text, sections, tokens, lim), OrDefault(overlap, OVERLAP_TOKENS))
  {
    var lim := SectionLimits(target, min, max);
    var overlapTokens := OrDefault(overlap, OVERLAP_TOKENS);
    var sectionTexts := SplitBySections(text, WithDefault(sections));
    chunks := MergeSections(sectionTexts, tokens, lim);
    if overlapTokens > 0 && |chunks| > 1 {
      chunks := AddSectionOverlap(chunks, overlapTokens);
    }
  }

  lemma VisibleSection(b: Block<Titled>, tokens: string -> nat, maxTokens: nat)
    ensures VisibleIn(RenderSection(b, tokens, maxTokens)) == VisibleIn(ItemsOf(b))
  {
    match b
    case Merged(items) =>
      VisibleInSingle(Titled(MergedTitle(items), Join("\n\n", Texts(items))));
      VisibleJoin("\n\n", Texts(items));
    case Oversized(item) =>
      var groups := LargeSectionGroups(item.text, tokens, maxTokens);
      VisibleInSingle(item);
      LargeSectionIsExact(item.text, tokens, maxTokens, item.title, []);
      VisibleJoin("\n\n", Texts(LargeSection(item.text, tokens, maxTokens, item.title)));
  }

  /** The chunks of an oversized section all carry its title, and joined with blank lines they are its
      text. */
  lemma OversizedKeepsTitle(item: Titled, tokens: string -> nat, maxTokens: nat)
    ensures var chunks := RenderSection(Oversized(item), tokens, maxTokens);
            Join("\n\n", Texts(chunks)) == item.text && forall i :: 0 <= i < |chunks| ==> chunks[i].title == item.title
  {
    LargeSectionIsExact(item.text, tokens, maxTokens, item.title, []);
  }

  lemma {:induction false} VisibleSections(bs: seq<Block<Titled>>, tokens: string -> nat, maxTokens: nat)
    ensures VisibleIn(RenderSections(bs, tokens, maxTokens)) == VisibleIn(Items(bs))
  {
    if bs != [] {
      var chunks, later := RenderSection(bs[0], tokens, maxTokens), RenderSections(bs[1..], tokens, maxTokens);
      VisibleSections(bs[1..], tokens, maxTokens);
      VisibleSection(bs[0], tokens, maxTokens);
      TextsConcat(chunks, later);
      TextsConcat(ItemsOf(bs[0]), Items(bs[1..]));
      VisibleAppend(Texts(chunks), Texts(later));
      VisibleAppend(Texts(ItemsOf(bs[0])), Texts(Items(bs[1..])));
    }
  }

  lemma {:induction false} VisiblePositive(tokens: string -> nat, ts: seq<Titled>)
    requires forall s :: s != "" ==> tokens(s) > 0
    ensures VisibleIn(Positive(SectionTokens(tokens), ts)) == VisibleIn(ts)
  {
    if ts != [] {
      VisiblePositive(tokens, ts[1..]);
      VisibleInPrepend(ts[0], ts[1..]);
      assert [ts[0]] + ts[1..] == ts;
      if SectionTokens(tokens)(ts[0]) != 0 {
        VisibleInPrepend(ts[0], Positive(SectionTokens(tokens), ts[1..]));
      }
    }
  }

  /** Before overlap, chunking keeps exactly the visible text the slicing kept. */
  lemma SectionChunksConserve(text: string, sections: seq<Section>, tokens: string -> nat, lim: Limits)
    requires forall s :: s != "" ==> tokens(s) > 0
    ensures VisibleIn(PlainSections(text, sections, tokens, lim)) == VisibleIn(SectionTexts(text, WithDefault(sections)))
  {
    var ts := SectionTexts(text, WithDefault(sections));
    BlocksKeepItems(SectionTokens(tokens), lim, ts);
    VisiblePositive(tokens, ts);
    VisibleSections(Blocks(SectionTokens(tokens), lim, [], ts), tokens, lim.max);
  }

  // ----- Detected sections -----

  /** From detection to chunks: the chunks of the detected sections have exactly the visible text of
      the document, in order. */
  lemma DetectedChunksConserve(text: string, existing: seq<Section>, level: string -> nat, tokens: string -> nat, lim: Limits)
    requires forall s :: s != "" ==> tokens(s) > 0
    ensures VisibleIn(PlainSections(text, Detected(text, existing, level), tokens, lim)) == Visible(text)
  {
    var sections := Detected(text, existing, level);
    SectionChunksConserve(text, sections, tokens, lim);
    if sections == [] {
      DefaultConserves(text);
    } else {
      DetectedSectionsConserve(text, existing, level);
    }
  }

  lemma DefaultConserves(text: string)
    ensures VisibleIn(SectionTexts(text, WithDefault([]))) == Visible(text)
  {
    var sections := WithDefault([]);
    assert AllStartAt(sections, 0);
    AllAtZeroIsOneSection(text, sections);
    VisibleInSingle(SectionTexts(text, sections)[0]);
    VisibleStrip(text);
  }

  ghost predicate AllTitled(ts: seq<Titled>) {
    forall t :: t in ts ==> t.title != ""
  }

  ghost predicate AllNamed(sorted: seq<Section>) {
    forall k :: 0 <= k < |sorted| ==> sorted[k].title != ""
  }

  lemma {:induction false} SlicesAreTitled(text: string, sorted: seq<Section>, i: nat)
    requires i <= |sorted| && AllNamed(sorted)
    ensures AllTitled(SlicesFrom(text, sorted, i))
    decreases |sorted| - i
  {
    if i < |sorted| {
      SlicesAreTitled(text, sorted, i + 1);
      NextSliceIsTitled(text, sorted, i);
    }
  }

  lemma NextSliceIsTitled(text: string, sorted: seq<Section>, i: nat)
    requires i < |sorted| && sorted[i].title != "" && AllTitled(SlicesFrom(text, sorted, i + 1))
    ensures AllTitled(SlicesFrom(text, sorted, i))
  {
  }

  lemma SectionTextsAreTitled(text: string, sections: seq<Section>)
    requires forall s :: s in sections ==> s.title != ""
    ensures AllTitled(SectionTexts(text, sections))
  {
    if sections != [] {
      SortKeeps(StartsNoLater, sections);
      var sorted := ByStart(sections);
      forall k | 0 <= k < |sorted|
        ensures sorted[k].title != ""
      {
        assert sorted[k] in multiset(sorted);
      }
      SlicesAreTitled(text, sorted, 0);
    }
  }

  lemma DetectedAreTitled(text: string, existing: seq<Section>, level: string -> nat)
    ensures forall s :: s in Detected(text, existing, level) ==> s.title != ""
  {
    var lines := Lines(text);
    forall i | 0 <= i < |Located(Given(existing), lines, |lines|)|
      ensures Located(Given(existing), lines, |lines|)[i].title != ""
    {
      var l := LocatedOnLine(Given(existing), lines, |lines|, i);
      TitleInIsNotEmpty(existing, Strip(lines[l]));
    }
    forall i | 0 <= i < |Located(HeadingOn(level), lines, |lines|)|
      ensures Located(HeadingOn(level), lines, |lines|)[i].title != ""
    {
      var l := LocatedOnLine(HeadingOn(level), lines, |lines|, i);
    }
  }

  lemma {:induction false} TitleInIsNotEmpty(existing: seq<Section>, stripped: string)
    ensures TitleIn(existing, stripped).Some? ==> TitleIn(existing, stripped).value.title != ""
  {
    if existing != [] {
      TitleInIsNotEmpty(existing[1..], stripped);
    }
  }

  lemma {:induction false} PositiveAreElements(tokens: string -> nat, ts: seq<Titled>, t: Titled)
    requires t in Positive(SectionTokens(tokens), ts)
    ensures t in ts
  {
    if t !in [ts[0]] {
      PositiveAreElements(tokens, ts[1..], t);
    }
  }

  lemma {:induction false} BlockItemsAreItems(bs: seq<Block<Titled>>, k: nat, t: Titled)
    requires k < |bs| && t in ItemsOf(bs[k])
    ensures t in Items(bs)
  {
    if k > 0 {
      BlockItemsAreItems(bs[1..], k - 1, t);
    }
  }

  /** For detected sections every merged chunk carries the title of its first section. */
  lemma DetectedChunkTitles(text: string, existing: seq<Section>, level: string -> nat, tokens: string -> nat, lim: Limits, k: nat)
    requires lim.min >= 1
    ensures var bs := Blocks(SectionTokens(tokens), lim, [], SectionTexts(text, WithDefault(Detected(text, existing, level))));
            k < |bs| && bs[k].Merged? ==>
              bs[k].items != [] && RenderSection(bs[k], tokens, lim.max) == [Titled(bs[k].items[0].title, Join("\n\n", Texts(bs[k].items)))]
  {
    var sections := WithDefault(Detected(text, existing, level));
    var ts := SectionTexts(text, sections);
    var bs := Blocks(SectionTokens(tokens), lim, [], ts);
    DetectedAreTitled(text, existing, level);
    SectionTextsAreTitled(text, sections);
    BlocksKeepItems(SectionTokens(tokens), lim, ts);
    BlocksArePacked(SectionTokens(tokens), lim, [], ts);
    if k < |bs| && bs[k].Merged? {
      assert WithinCap(SectionTokens(tokens), lim, bs[k]);
      BlockItemsAreItems(bs, k, bs[k].items[0]);
      PositiveAreElements(tokens, ts, bs[k].items[0]);
    }
  }
}
