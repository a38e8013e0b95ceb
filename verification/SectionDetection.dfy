/** Finding the sections of a document: titles given by the parser, or headings in the text,
    located at the offsets of the lines they stand on. */
module SectionDetection {
  import opened Options
  import opened Text

  datatype Section = Section(title: string, level: nat, start: nat)

  datatype Heading = Heading(title: string, level: nat)

  /** Where line number k starts, when the lines are joined by newlines. */
  function LineOffset(lines: seq<string>, k: nat): nat
    requires k <= |lines|
  {
    if k == 0 then 0 else LineOffset(lines, k - 1) + |lines[k - 1]| + 1
  }

  lemma {:induction false} LineOffsetGrows(lines: seq<string>, j: nat, k: nat)
    requires j < k <= |lines|
    ensures LineOffset(lines, j) < LineOffset(lines, k)
  {
    if j < k - 1 {
      LineOffsetGrows(lines, j, k - 1);
    }
  }

  /** The sections found on the first k lines: one for each line whose stripped text pick accepts. */
  function Located(pick: string -> Option<Heading>, lines: seq<string>, k: nat): seq<Section>
    requires k <= |lines|
  {
    if k == 0 then [] else Record(Located(pick, lines, k - 1), pick(Strip(lines[k - 1])), LineOffset(lines, k - 1))
  }

  function Record(secs: seq<Section>, heading: Option<Heading>, offset: nat): seq<Section> {
    match heading
    case None => secs
    case Some(h) => secs + [Section(h.title, h.level, offset)]
  }

  /** Section s was found on line k. */
  ghost predicate FoundOn(pick: string -> Option<Heading>, lines: seq<string>, s: Section, k: int) {
    && 0 <= k < |lines|
    && s.start == LineOffset(lines, k)
    && pick(Strip(lines[k])) == Some(Heading(s.title, s.level))
  }

  ghost predicate Increasing(secs: seq<Section>) {
    forall i, j :: 0 <= i < j < |secs| ==> secs[i].start < secs[j].start
  }

  ghost predicate AllBefore(secs: seq<Section>, offset: nat) {
    forall i :: 0 <= i < |secs| ==> secs[i].start < offset
  }

  /** The offsets increase strictly. */
  lemma {:induction false} LocatedInOrder(pick: string -> Option<Heading>, lines: seq<string>, k: nat)
    requires k <= |lines|
    ensures Increasing(Located(pick, lines, k))
    ensures AllBefore(Located(pick, lines, k), LineOffset(lines, k))
  {
    if k > 0 {
      LocatedInOrder(pick, lines, k - 1);
      LineOffsetGrows(lines, k - 1, k);
    }
  }

  /** Every section is found on some line. */
  lemma {:induction false} LocatedOnLine(pick: string -> Option<Heading>, lines: seq<string>, k: nat, i: nat) returns (l: nat)
    requires k <= |lines| && i < |Located(pick, lines, k)|
    ensures l < k && FoundOn(pick, lines, Located(pick, lines, k)[i], l)
    decreases k
  {
    if i == |Located(pick, lines, k)| - 1 && pick(Strip(lines[k - 1])).Some? {
      l := k - 1;
    } else {
      l := LocatedOnLine(pick, lines, k - 1, i);
    }
  }

  /** Every line that pick accepts has its section. */
  lemma {:induction false} LineIsLocated(pick: string -> Option<Heading>, lines: seq<string>, k: nat, l: nat) returns (i: nat)
    requires l < k <= |lines| && pick(Strip(lines[l])).Some?
    ensures i < |Located(pick, lines, k)| && FoundOn(pick, lines, Located(pick, lines, k)[i], l)
    decreases k
  {
    if l == k - 1 {
      i := |Located(pick, lines, k - 1)|;
    } else {
      i := LineIsLocated(pick, lines, k - 1, l);
    }
  }

  /** The offsets are true positions in the text: line k stands at LineOffset(lines, k). */
  lemma {:induction false} LineStandsAtOffset(text: string, lines: seq<string>, k: nat)
    requires lines != [] && Join("\n", lines) == text && k < |lines|
    ensures LineOffset(lines, k) + |lines[k]| <= |text|
    ensures text[LineOffset(lines, k)..][..|lines[k]|] == lines[k]
    decreases k
  {
    if |lines| > 1 {
      var rest := lines[1..];
      var text' := Join("\n", rest);
      assert text == lines[0] + "\n" + text';
      if k > 0 {
        LineStandsAtOffset(text', rest, k - 1);
        OffsetShift(lines, k);
        assert text[|lines[0]| + 1..] == text';
        assert text[LineOffset(lines, k)..] == text'[LineOffset(rest, k - 1)..];
      }
    }
  }

  lemma {:induction false} OffsetShift(lines: seq<string>, k: nat)
    requires 0 < k <= |lines|
    ensures LineOffset(lines, k) == |lines[0]| + 1 + LineOffset(lines[1..], k - 1)
  {
    if k > 1 {
      OffsetShift(lines, k - 1);
    }
  }

  // ----- Titles from the parser -----

  predicate Contains(s: string, sub: string) {
    FindFrom(s, sub, 0) != -1
  }

  /** The first given section whose non-empty title occurs in the stripped line. */
  function TitleIn(existing: seq<Section>, stripped: string): Option<Heading> {
    if existing == [] then None
    else if existing[0].title != "" && Contains(stripped, existing[0].title) then
      Some(Heading(existing[0].title, existing[0].level))
    else TitleIn(existing[1..], stripped)
  }

  /** The title is not empty and occurs in the stripped line. */
  ghost predicate Names(s: Section, stripped: string) {
    s.title != "" && exists pos: nat :: OccursAt(stripped, pos, s.title)
  }

  lemma ContainsIff(s: string, sub: string)
    ensures Contains(s, sub) <==> exists pos: nat :: OccursAt(s, pos, sub)
  {
    FindIsFirst(s, sub, 0);
    if pos: nat :| OccursAt(s, pos, sub) {
      assert 0 <= pos <= |s|;
    }
  }

  /** The heading on a line is that of the first given section whose title occurs in it, and there is
      none when no title does. */
  lemma {:induction false} TitleInIsFirst(existing: seq<Section>, stripped: string) returns (i: nat)
    ensures i <= |existing| && forall j: nat :: j < i ==> !Names(existing[j], stripped)
    ensures i < |existing| ==> Names(existing[i], stripped)
    ensures TitleIn(existing, stripped) == if i < |existing| then Some(Heading(existing[i].title, existing[i].level)) else None
  {
    i := 0;
    if existing != [] {
      ContainsIff(stripped, existing[0].title);
      if TitleIn(existing, stripped) == TitleIn(existing[1..], stripped) && !Names(existing[0], stripped) {
        var k := TitleInIsFirst(existing[1..], stripped);
        i := k + 1;
        forall j: nat | j < i
          ensures !Names(existing[j], stripped)
        {
          assert j > 0 ==> existing[j] == existing[1..][j - 1];
        }
      }
    }
  }

  function Given(existing: seq<Section>): string -> Option<Heading> {
    stripped => TitleIn(existing, stripped)
  }

  function Lines(text: string): (lines: seq<string>)
    ensures lines != []
  {
    SplitOn("\n", text)
  }

  /** level is the heading level of a line, 0 when it is no heading. */
  method DetectSections(text: string, existing: seq<Section>, level: string -> nat) returns (sections: seq<Section>)
    ensures sections == Detected(text, existing, level)
  {
    if existing != [] {
      var positioned: seq<Section> := [];
      var charOffset := 0;
      var lines := Lines(text);
      for n := 0 to |lines|
        invariant charOffset == LineOffset(lines, n)
        invariant positioned == Located(Given(existing), lines, n)
      {
        LocatedInOrder(Given(existing), lines, n);
        positioned := ScanTitles(existing, Strip(lines[n]), charOffset, positioned);
        charOffset := charOffset + |lines[n]| + 1;
      }
      if positioned != [] {
        return positioned;
      }
    }
    sections := DetectHeadings(text, level);
  }

  /** One line: a title is recorded unless a section is recorded at this offset already. */
  method ScanTitles(existing: seq<Section>, stripped: string, charOffset: nat, positioned: seq<Section>)
      returns (r: seq<Section>)
    requires AllBefore(positioned, charOffset)
    ensures r == Record(positioned, TitleIn(existing, stripped), charOffset)
  {
    r := positioned;
    for i := 0 to |existing|
      invariant r == positioned ==> TitleIn(existing, stripped) == TitleIn(existing[i..], stripped)
      invariant r != positioned ==> TitleIn(existing, stripped).Some? && r == Record(positioned, TitleIn(existing, stripped), charOffset)
    {
      var s := existing[i];
      assert existing[i..][1..] == existing[i + 1..];
      assert r != positioned ==> r[|positioned|].start == charOffset;
      if s.title != "" && Contains(stripped, s.title) && !(exists j :: 0 <= j < |r| && r[j].start == charOffset) {
        r := r + [Section(s.title, s.level, charOffset)];
      }
    }
  }

  // ----- Headings in the text -----

  function HeadingOn(level: string -> nat): string -> Option<Heading> {
    stripped => if stripped != "" && level(stripped) > 0 then Some(Heading(stripped, level(stripped))) else None
  }

  function Headings(text: string, level: string -> nat): seq<Section> {
    var found := Located(HeadingOn(level), Lines(text), |Lines(text)|);
    if found == [] && Strip(text) != "" then [Section("Document", 1, 0)] else found
  }

  method DetectHeadings(text: string, level: string -> nat) returns (sections: seq<Section>)
    ensures sections == Headings(text, level)
  {
    sections := [];
    var lines := Lines(text);
    var charOffset := 0;
    for n := 0 to |lines|
      invariant charOffset == LineOffset(lines, n)
      invariant sections == Located(HeadingOn(level), lines, n)
    {
      var stripped := Strip(lines[n]);
      if stripped != "" {
        var l := level(stripped);
        if l > 0 {
          sections := sections + [Section(stripped, l, charOffset)];
        }
      }
      charOffset := charOffset + |lines[n]| + 1;
    }
    if sections == [] && Strip(text) != "" {
      sections := [Section("Document", 1, 0)];
    }
  }

  function Detected(text: string, existing: seq<Section>, level: string -> nat): seq<Section> {
    var positioned := Located(Given(existing), Lines(text), |Lines(text)|);
    if existing != [] && positioned != [] then positioned else Headings(text, level)
  }

  ghost predicate SomeTitleStands(text: string, existing: seq<Section>) {
    exists k: nat, j: nat :: k < |Lines(text)| && j < |existing| && Names(existing[j], Strip(Lines(text)[k]))
  }

  /** The given titles are used exactly when one of them stands on some line; otherwise headings are
      looked for, and a document without any is one section unless it is blank. */
  lemma TitlesAreUsedIff(text: string, existing: seq<Section>, level: string -> nat)
    ensures var found, lines := Located(Given(existing), Lines(text), |Lines(text)|), Lines(text);
            && (found != [] <==> SomeTitleStands(text, existing))
            && Detected(text, existing, level) == if SomeTitleStands(text, existing) then found else Headings(text, level)
  {
    var lines := Lines(text);
    var found := Located(Given(existing), lines, |lines|);
    if found != [] {
      var k := LocatedOnLine(Given(existing), lines, |lines|, 0);
      var j := TitleInIsFirst(existing, Strip(lines[k]));
      assert Names(existing[j], Strip(lines[k]));
    }
    if SomeTitleStands(text, existing) {
      var k: nat, j: nat :| k < |lines| && j < |existing| && Names(existing[j], Strip(lines[k]));
      var i := TitleInIsFirst(existing, Strip(lines[k]));
      var l := LineIsLocated(Given(existing), lines, |lines|, k);
    }
  }

  lemma BlankLine(text: string, k: nat)
    requires AllSpace(text) && k < |Lines(text)|
    ensures Strip(Lines(text)[k]) == ""
  {
    var line, start := Lines(text)[k], LineOffset(Lines(text), k);
    JoinOfSplit("\n", text);
    LineStandsAtOffset(text, Lines(text), k);
    forall i | 0 <= i < |line|
      ensures IsSpace(line[i])
    {
      assert text[start..][..|line|][i] == text[start + i];
    }
    VisibleStrip(line);
  }

  lemma NothingOnBlank(existing: seq<Section>, level: string -> nat)
    ensures Given(existing)("") == None && HeadingOn(level)("") == None
  {
    var i := TitleInIsFirst(existing, "");
  }

  /** Nothing is detected exactly in a blank text. */
  lemma NothingDetectedIff(text: string, existing: seq<Section>, level: string -> nat)
    ensures Detected(text, existing, level) == [] <==> AllSpace(text)
  {
    var lines := Lines(text);
    VisibleStrip(text);
    if AllSpace(text) {
      NothingOnBlank(existing, level);
      if Located(Given(existing), lines, |lines|) != [] {
        var k := LocatedOnLine(Given(existing), lines, |lines|, 0);
        BlankLine(text, k);
      }
      if Located(HeadingOn(level), lines, |lines|) != [] {
        var k := LocatedOnLine(HeadingOn(level), lines, |lines|, 0);
        BlankLine(text, k);
      }
    }
  }

  /** Whatever the parser gave and whatever counts as a heading, the detected sections are in
      strictly increasing order of position. */
  lemma DetectedInOrder(text: string, existing: seq<Section>, level: string -> nat)
    ensures Increasing(Detected(text, existing, level))
  {
    var lines := Lines(text);
    LocatedInOrder(Given(existing), lines, |lines|);
    LocatedInOrder(HeadingOn(level), lines, |lines|);
  }

  /** Each detected section starts a line of the text. */
  lemma DetectedStartsLine(text: string, existing: seq<Section>, level: string -> nat, i: nat)
    requires i < |Detected(text, existing, level)|
    ensures var start := Detected(text, existing, level)[i].start;
            start <= |text| && (start > 0 ==> text[start - 1] == '\n')
  {
    var lines := Lines(text);
    JoinOfSplit("\n", text);
    var secs := Detected(text, existing, level);
    if secs != [Section("Document", 1, 0)] {
      var pick := if secs == Located(Given(existing), lines, |lines|) then Given(existing) else HeadingOn(level);
      assert secs == Located(pick, lines, |lines|);
      var k := LocatedOnLine(pick, lines, |lines|, i);
      LineStandsAtOffset(text, lines, k);
      NewlineBeforeLine(text, lines, k);
    }
  }

  lemma {:induction false} NewlineBeforeLine(text: string, lines: seq<string>, k: nat)
    requires lines != [] && Join("\n", lines) == text && 0 <= k < |lines|
    ensures 0 < k ==> 0 < LineOffset(lines, k) <= |text| && text[LineOffset(lines, k) - 1] == '\n'
    decreases k
  {
    if k > 0 {
      var rest := lines[1..];
      var text' := Join("\n", rest);
      assert text == lines[0] + "\n" + text';
      OffsetShift(lines, k);
      NewlineBeforeLine(text', rest, k - 1);
      if k == 1 {
        assert text[|lines[0]|] == '\n';
      } else {
        assert text[LineOffset(lines, k) - 1] == text'[LineOffset(rest, k - 1) - 1];
      }
    }
  }
}
