/** Cutting a document at its section starts. */
module SectionSlicing {
  import opened Text
  import opened Sorting
  import opened SectionDetection

  /** A titled stretch of text: (section_title, section_text). */
  datatype Titled = Titled(title: string, text: string)

  function Texts(ts: seq<Titled>): seq<string> {
    if ts == [] then [] else [ts[0].text] + Texts(ts[1..])
  }

  lemma {:induction false} TextsConcat(a: seq<Titled>, b: seq<Titled>)
    ensures Texts(a + b) == Texts(a) + Texts(b)
  {
    if a == [] {
      assert a + b == b;
    } else {
      assert (a + b)[1..] == a[1..] + b;
      TextsConcat(a[1..], b);
    }
  }

  // ----- Slicing -----

  predicate StartsNoLater(a: Section, b: Section) {
    a.start <= b.start
  }

  function ByStart(sections: seq<Section>): seq<Section> {
    Sort(StartsNoLater, sections)
  }

  /** The non-blank slices from section number i on, each up to the start of the next section. */
  function SlicesFrom(text: string, sorted: seq<Section>, i: nat): seq<Titled>
    requires i <= |sorted|
    decreases |sorted| - i
  {
    if i == |sorted| then []
    else
      var end := if i + 1 < |sorted| then sorted[i + 1].start else |text|;
      var t := Strip(Slice(text, sorted[i].start, end));
      if t == "" then SlicesFrom(text, sorted, i + 1)
      else [Titled(sorted[i].title, t)] + SlicesFrom(text, sorted, i + 1)
  }

  /** The text before the section that is listed first, if any of it is visible. */
  function WithFrontMatter(text: string, first: nat, slices: seq<Titled>): seq<Titled> {
    if slices != [] && first > 0 && Strip(Slice(text, 0, first)) != "" then
      [Titled("Front Matter", Strip(Slice(text, 0, first)))] + slices
    else slices
  }

  function SectionTexts(text: string, sections: seq<Section>): seq<Titled> {
    if sections == [] then [Titled("Document", text)]
    else
      var result := WithFrontMatter(text, sections[0].start, SlicesFrom(text, ByStart(sections), 0));
      if result == [] then [Titled("Document", text)] else result
  }

  method SplitBySections(text: string, sections: seq<Section>) returns (result: seq<Titled>)
    ensures result == SectionTexts(text, sections)
  {
    if sections == [] {
      return [Titled("Document", text)];
    }
    var sorted := ByStart(sections);
    result := [];
    for i := 0 to |sorted|
      invariant Remains(SlicesFrom(text, sorted, 0), result, SlicesFrom(text, sorted, i))
    {
      var start := sorted[i].start;
      var end := if i + 1 < |sorted| then sorted[i + 1].start else |text|;
      var sectionText := Strip(Slice(text, start, end));
      if sectionText != "" {
        Advance(SlicesFrom(text, sorted, 0), result, [Titled(sorted[i].title, sectionText)], SlicesFrom(text, sorted, i + 1));
        result := result + [Titled(sorted[i].title, sectionText)];
      }
    }
    if result != [] && sections[0].start > 0 {
      var preText := Strip(Slice(text, 0, sections[0].start));
      if preText != "" {
        result := [Titled("Front Matter", preText)] + result;
      }
    }
    if result == [] {
      result := [Titled("Document", text)];
    }
  }

  /** What is visible in a list of titled texts, in order. */
  function VisibleIn(ts: seq<Titled>): string {
    Visible(Flatten(Texts(ts)))
  }

  lemma VisibleInPrepend(t: Titled, ts: seq<Titled>)
    ensures VisibleIn([t] + ts) == Visible(t.text) + VisibleIn(ts)
  {
    assert ([t] + ts)[1..] == ts;
    VisiblePrepend(t.text, Texts(ts));
  }

  lemma VisibleInSingle(t: Titled)
    ensures VisibleIn([t]) == Visible(t.text)
  {
    assert Texts([t]) == [t.text];
    FlattenSingle(t.text);
  }

  lemma VisibleCut(text: string, a: nat, b: nat, c: nat)
    requires a <= b <= c
    ensures Visible(Slice(text, a, c)) == Visible(Slice(text, a, b)) + Visible(Slice(text, b, c))
  {
    var l, r := Slice(text, a, b), Slice(text, b, c);
    VisibleConcat(l, r);
    if l == "" {
      assert Slice(text, a, c) == r;
    } else if r == "" {
      assert Slice(text, a, c) == l;
    } else {
      assert Slice(text, a, c) == l + r;
    }
  }

  /** Once the sections are sorted, their slices hold the visible text from the first start on. */
  lemma {:induction false} SlicesCoverTail(text: string, sorted: seq<Section>, i: nat)
    requires Sorted(StartsNoLater, sorted) && i < |sorted|
    ensures VisibleIn(SlicesFrom(text, sorted, i)) == Visible(Slice(text, sorted[i].start, |text|))
    decreases |sorted| - i
  {
    var end := if i + 1 < |sorted| then sorted[i + 1].start else |text|;
    var slice := Slice(text, sorted[i].start, end);
    var later := SlicesFrom(text, sorted, i + 1);
    VisibleStrip(slice);
    VisibleOfSpace(slice);
    if Strip(slice) != "" {
      VisibleInPrepend(Titled(sorted[i].title, Strip(slice)), later);
    }
    if i + 1 < |sorted| {
      assert StartsNoLater(sorted[i], sorted[i + 1]);
      SlicesCoverTail(text, sorted, i + 1);
      if end <= |text| {
        VisibleCut(text, sorted[i].start, end, |text|);
      } else {
        assert later == [] || Visible(Slice(text, end, |text|)) == "";
        assert Slice(text, sorted[i].start, end) == Slice(text, sorted[i].start, |text|);
      }
    } else {
      assert later == [];
    }
  }

  /** The least offset of the sections, and what the sorted list starts with. */
  lemma FirstIsLeast(sections: seq<Section>)
    requires sections != []
    ensures var s := ByStart(sections);
            && s != [] && Sorted(StartsNoLater, s)
            && (forall i :: 0 <= i < |sections| ==> s[0].start <= sections[i].start)
            && exists i :: 0 <= i < |sections| && s[0] == sections[i]
  {
    var s := ByStart(sections);
    assert TotalPreorder(StartsNoLater);
    SortSorts(StartsNoLater, sections);
    SortKeeps(StartsNoLater, sections);
    assert s[0] in multiset(s);
    assert s[0] in sections;
    forall i | 0 <= i < |sections|
      ensures s[0].start <= sections[i].start
    {
      assert sections[i] in multiset(sections);
      assert sections[i] in multiset(s);
      var j :| 0 <= j < |s| && s[j] == sections[i];
      assert j > 0 ==> StartsNoLater(s[0], s[j]);
    }
  }

  /** Front matter in front of the slices: what is visible then, given what is visible up to
      the least start (a), from there to the first listed start (b), and from there on (c). */
  lemma FrontMatterRepeats(text: string, first: nat, slices: seq<Titled>, a: string, b: string, c: string)
    requires slices != [] && VisibleIn(slices) == c
    requires Visible(Slice(text, 0, first)) == a + b && (first == 0 ==> a == "" && b == "")
    ensures VisibleIn(WithFrontMatter(text, first, slices)) == a + c <==> b == ""
  {
    var pre := Slice(text, 0, first);
    var total := VisibleIn(WithFrontMatter(text, first, slices));
    VisibleStrip(pre);
    VisibleOfSpace(pre);
    if first > 0 && Strip(pre) != "" {
      VisibleInPrepend(Titled("Front Matter", Strip(pre)), slices);
      assert |total| == |a| + |b| + |c|;
      assert b == "" ==> a + b == a;
    } else {
      assert |a + b| == 0;
    }
  }

  /** Slicing at the sections keeps the visible text exactly when nothing visible stands between
      the section that starts first and the section that is listed first (that stretch would be
      repeated as front matter), or when no section has any visible text. */
  lemma {:induction false} SectionTextsConserve(text: string, sections: seq<Section>)
    requires sections != []
    ensures var least := ByStart(sections)[0].start;
            VisibleIn(SectionTexts(text, sections)) == Visible(text) <==>
            AllSpace(Slice(text, least, sections[0].start)) || AllSpace(Slice(text, least, |text|))
  {
    FirstIsLeast(sections);
    var sorted := ByStart(sections);
    var least, first := sorted[0].start, sections[0].start;
    var slices := SlicesFrom(text, sorted, 0);
    SlicesCoverTail(text, sorted, 0);
    NoSlices(text, sorted, 0);
    VisibleOfSpace(Slice(text, least, |text|));
    VisibleOfSpace(Slice(text, least, first));
    VisibleInSingle(Titled("Document", text));
    if slices != [] {
      WholeText(text, least);
      VisibleCut(text, 0, least, first);
      FrontMatterRepeats(text, first, slices, Visible(Slice(text, 0, least)), Visible(Slice(text, least, first)),
                         Visible(Slice(text, least, |text|)));
    }
  }

  lemma WholeText(text: string, a: nat)
    ensures Visible(text) == Visible(Slice(text, 0, a)) + Visible(Slice(text, a, |text|))
  {
    assert Slice(text, 0, |text|) == text;
    if a <= |text| {
      VisibleCut(text, 0, a, |text|);
    } else {
      assert Slice(text, 0, a) == text;
    }
  }

  lemma {:induction false} NoSlices(text: string, sorted: seq<Section>, i: nat)
    requires i <= |sorted|
    ensures SlicesFrom(text, sorted, i) == [] <==> VisibleIn(SlicesFrom(text, sorted, i)) == ""
    decreases |sorted| - i
  {
    if i < |sorted| {
      NoSlices(text, sorted, i + 1);
      var end := if i + 1 < |sorted| then sorted[i + 1].start else |text|;
      var slice := Slice(text, sorted[i].start, end);
      VisibleStrip(slice);
      VisibleOfSpace(slice);
      if Strip(slice) != "" {
        VisibleInPrepend(Titled(sorted[i].title, Strip(slice)), SlicesFrom(text, sorted, i + 1));
      }
    }
  }

  /** Sections found by detection are listed in order, so slicing at them keeps the text. */
  lemma DetectedSectionsConserve(text: string, existing: seq<Section>, level: string -> nat)
    ensures VisibleIn(SectionTexts(text, Detected(text, existing, level))) == Visible(text)
  {
    var sections := Detected(text, existing, level);
    if sections == [] {
      VisibleInSingle(Titled("Document", text));
    } else {
      DetectedInOrder(text, existing, level);
      FirstIsLeast(sections);
      SectionTextsConserve(text, sections);
      assert ByStart(sections)[0].start == sections[0].start;
    }
  }

  // ----- Equal starts -----

  /** Of sections with the same start only the last in the sorted order, so by stability the last
      listed, can get a slice. */
  lemma TiedSectionIsSkipped(text: string, sorted: seq<Section>, i: nat)
    requires i + 1 < |sorted| && sorted[i].start == sorted[i + 1].start
    ensures SlicesFrom(text, sorted, i) == SlicesFrom(text, sorted, i + 1)
  {
    assert Slice(text, sorted[i].start, sorted[i + 1].start) == "";
    assert Strip("") == "";
  }

  lemma {:induction false} FilterAll<T>(p: T -> bool, xs: seq<T>)
    requires forall x :: x in xs ==> p(x)
    ensures Filter(p, xs) == xs
  {
    if xs != [] {
      FilterAll(p, xs[1..]);
      assert xs[0] in xs && xs == [xs[0]] + xs[1..];
    }
  }

  ghost predicate AllStartAt(sections: seq<Section>, start: nat) {
    forall s :: s in sections ==> s.start == start
  }

  /** Sections that all start at the same place keep their order. */
  lemma TiesKeepOrder(sections: seq<Section>, start: nat)
    requires AllStartAt(sections, start)
    ensures ByStart(sections) == sections
  {
    var at := (s: Section) => s.start == start;
    SortKeeps(StartsNoLater, sections);
    forall s | s in ByStart(sections)
      ensures at(s)
    {
      assert s in multiset(ByStart(sections));
    }
    FilterAll(at, sections);
    FilterAll(at, ByStart(sections));
    SortIsStable(StartsNoLater, at, sections);
  }

  lemma {:induction false} OnlyLastSliced(text: string, sections: seq<Section>, i: nat)
    requires i < |sections| && forall s :: s in sections ==> s.start == 0
    ensures SlicesFrom(text, sections, i) == if Strip(text) == "" then [] else [Titled(sections[|sections| - 1].title, Strip(text))]
    decreases |sections| - i
  {
    assert sections[i] in sections;
    if i + 1 < |sections| {
      assert sections[i + 1] in sections;
      TiedSectionIsSkipped(text, sections, i);
      OnlyLastSliced(text, sections, i + 1);
    } else {
      assert Slice(text, 0, |text|) == text;
    }
  }

  /** A parser that gives no positions leaves every start at 0. Then the sections before the last
      listed one are lost: the whole text stands under the title of the last, or, when it is
      blank, under the default title. */
  lemma AllAtZeroIsOneSection(text: string, sections: seq<Section>)
    requires sections != [] && AllStartAt(sections, 0)
    ensures SectionTexts(text, sections)
         == if Strip(text) == "" then [Titled("Document", text)] else [Titled(sections[|sections| - 1].title, Strip(text))]
  {
    TiesKeepOrder(sections, 0);
    OnlyLastSliced(text, sections, 0);
    assert sections[0] in sections;
  }
}
