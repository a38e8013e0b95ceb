/** From detection to slices: each detected section gets one slice, under the title that stands on its
    first line. */
module SectionTitles {
  import opened Options
  import opened SectionDetection
  import opened SectionSlicing
  import opened Sorting
  import opened Text

  /** A heading that pick finds on a stripped line occurs in it. */
  lemma PickedOccurs(existing: seq<Section>, level: string -> nat, pick: string -> Option<Heading>, stripped: string, h: Heading)
      returns (q: nat)
    requires pick == Given(existing) || pick == HeadingOn(level)
    requires pick(stripped) == Some(h)
    ensures h.title != "" && OccursAt(stripped, q, h.title)
  {
    if pick == Given(existing) {
      var i := TitleInIsFirst(existing, stripped);
      q :| OccursAt(stripped, q, existing[i].title);
    } else {
      q := 0;
    }
  }

  /** A detected section is the default one, or its title stands on the line it was found on. */
  lemma DetectedOnLine(text: string, existing: seq<Section>, level: string -> nat, i: nat) returns (pick: string -> Option<Heading>, k: nat)
    requires i < |Detected(text, existing, level)| && Detected(text, existing, level) != [Section("Document", 1, 0)]
    ensures pick == Given(existing) || pick == HeadingOn(level)
    ensures k < |Lines(text)| && FoundOn(pick, Lines(text), Detected(text, existing, level)[i], k)
  {
    var lines, secs := Lines(text), Detected(text, existing, level);
    pick := if secs == Located(Given(existing), lines, |lines|) then Given(existing) else HeadingOn(level);
    assert secs == Located(pick, lines, |lines|);
    k := LocatedOnLine(pick, lines, |lines|, i);
  }

  /** Where the line of a section lies in the text, and its stripped part in the line. */
  lemma LineInText(text: string, k: nat) returns (from: nat, to: nat)
    requires k < |Lines(text)|
    ensures var start := LineOffset(Lines(text), k);
            LineEnd(text, k) <= |text| && start <= from <= to <= LineEnd(text, k) && text[from..to] == Strip(Lines(text)[k])
  {
    var line, start := Lines(text)[k], LineOffset(Lines(text), k);
    JoinOfSplit("\n", text);
    LineStandsAtOffset(text, Lines(text), k);
    var f, t := StripWithin(line);
    from, to := start + f, start + t;
    SliceInSlice(text, start, line, f, t);
  }

  lemma SliceInSlice(text: string, start: nat, line: string, f: nat, t: nat)
    requires start + |line| <= |text| && text[start..][..|line|] == line && f <= t <= |line|
    ensures text[start + f..start + t] == line[f..t]
  {
    forall i | 0 <= i < t - f
      ensures text[start + f..start + t][i] == line[f..t][i]
    {
      assert text[start..][..|line|][f + i] == text[start + f + i];
    }
  }

  function LineEnd(text: string, k: nat): nat
    requires k < |Lines(text)|
  {
    LineOffset(Lines(text), k) + |Lines(text)[k]|
  }

  lemma OccursInSlice(text: string, from: nat, to: nat, q: nat, sub: string, a: nat, b: nat)
    requires a <= from <= to <= b <= |text| && OccursAt(text[from..to], q, sub)
    ensures OccursAt(text[a..b], from - a + q, sub)
  {
    forall k | 0 <= k < |sub|
      ensures text[a..b][from - a + q + k] == sub[k]
    {
      assert text[from..to][q + k] == sub[k];
    }
  }

  /** The stretch text[from..to] with visible ends, in which title occurs at q, lies in the slice from
      a to b: then title occurs in the stripped slice. */
  lemma TitleInSlice(text: string, a: nat, b: nat, from: nat, to: nat, q: nat, title: string) returns (pos: nat)
    requires a <= from < to <= b <= |text| && Stripped(text[from..to]) && OccursAt(text[from..to], q, title)
    ensures Strip(text[a..b]) != "" && OccursAt(Strip(text[a..b]), pos, title)
  {
    var s := text[a..b];
    var f, t := StripBounds(s);
    assert text[from..to][0] == text[from] == s[from - a] && text[from..to][to - from - 1] == text[to - 1] == s[to - 1 - a];
    SliceOfSlice(text, a, b, f, t);
    OccursInSlice(text, from, to, q, title, a + f, a + t);
    pos := from - (a + f) + q;
  }

  function SliceEnd(text: string, secs: seq<Section>, i: nat): nat
    requires i < |secs|
  {
    if i + 1 < |secs| then secs[i + 1].start else |text|
  }

  /** The slice of a detected section holds the section's title. */
  lemma SliceHoldsTitle(text: string, existing: seq<Section>, level: string -> nat, i: nat) returns (pos: nat)
    requires i < |Detected(text, existing, level)| && Detected(text, existing, level) != [Section("Document", 1, 0)]
    ensures var secs := Detected(text, existing, level);
            var slice := Strip(Slice(text, secs[i].start, SliceEnd(text, secs, i)));
            slice != "" && OccursAt(slice, pos, secs[i].title)
  {
    var secs := Detected(text, existing, level);
    var pick, k := DetectedOnLine(text, existing, level, i);
    var from, to := LineInText(text, k);
    var q := PickedOccurs(existing, level, pick, text[from..to], Heading(secs[i].title, secs[i].level));
    StripIsStripped(Lines(text)[k]);
    EndAfterLine(text, existing, level, i, k, pick);
    var a, b := secs[i].start, SliceEnd(text, secs, i);
    pos := TitleInSlice(text, a, b, from, to, q, secs[i].title);
    assert Slice(text, a, b) == text[a..b];
  }

  lemma EndAfterLine(text: string, existing: seq<Section>, level: string -> nat, i: nat, k: nat, pick: string -> Option<Heading>)
    requires i < |Detected(text, existing, level)| && Detected(text, existing, level) != [Section("Document", 1, 0)]
    requires pick == Given(existing) || pick == HeadingOn(level)
    requires FoundOn(pick, Lines(text), Detected(text, existing, level)[i], k)
    ensures LineEnd(text, k) <= SliceEnd(text, Detected(text, existing, level), i) <= |text|
  {
    var secs := Detected(text, existing, level);
    var _, _ := LineInText(text, k);
    if i + 1 < |secs| {
      DetectedInOrder(text, existing, level);
      var pick', l := DetectedOnLine(text, existing, level, i + 1);
      var _, _ := LineInText(text, l);
      StartsDiffer(text, secs[i], k, pick, secs[i + 1], l, pick');
    }
  }

  /** Only the lines matter for where a section starts. */
  lemma StartsDiffer(text: string, s: Section, k: nat, pick: string -> Option<Heading>,
                     next: Section, l: nat, pick': string -> Option<Heading>)
    requires FoundOn(pick, Lines(text), s, k) && FoundOn(pick', Lines(text), next, l) && s.start < next.start
    ensures LineEnd(text, k) < next.start
  {
    var lines := Lines(text);
    if l < k {
      LineOffsetGrows(lines, l, k);
    } else if l > k + 1 {
      LineOffsetGrows(lines, k + 1, l);
    }
  }

  function SliceOf(text: string, sorted: seq<Section>, i: nat): string
    requires i < |sorted|
  {
    Strip(Slice(text, sorted[i].start, SliceEnd(text, sorted, i)))
  }

  lemma NextSliced(text: string, sorted: seq<Section>, i: nat)
    requires i < |sorted| && SliceOf(text, sorted, i) != ""
    ensures SlicesFrom(text, sorted, i) == [Titled(sorted[i].title, SliceOf(text, sorted, i))] + SlicesFrom(text, sorted, i + 1)
  {
  }

  ghost predicate AllVisible(text: string, sorted: seq<Section>) {
    forall j: nat :: j < |sorted| ==> SliceOf(text, sorted, j) != ""
  }

  /** tail(i) is head(i) and then tail(i + 1). */
  predicate Unrolls<T(==)>(tail: nat -> seq<T>, head: nat -> T, i: nat) {
    tail(i) == [head(i)] + tail(i + 1)
  }

  lemma {:induction false} UnrolledAt<T>(tail: nat -> seq<T>, head: nat -> T, n: nat, i: nat, k: nat)
    requires i <= n && tail(n) == [] && forall j: nat :: j < n ==> Unrolls(tail, head, j)
    ensures |tail(i)| == n - i
    ensures k < n - i ==> tail(i)[k] == head(i + k)
    decreases n - i
  {
    if i < n {
      assert Unrolls(tail, head, i);
      UnrolledAt(tail, head, n, i + 1, if k > 0 then k - 1 else 0);
    }
  }

  function TailFrom(text: string, sorted: seq<Section>): nat -> seq<Titled> {
    (i: nat) => if i <= |sorted| then SlicesFrom(text, sorted, i) else []
  }

  function HeadAt(text: string, sorted: seq<Section>): nat -> Titled {
    (i: nat) => if i < |sorted| then Titled(sorted[i].title, SliceOf(text, sorted, i)) else Titled("", "")
  }

  lemma SliceUnrolls(text: string, sorted: seq<Section>, i: nat)
    requires i < |sorted| && SliceOf(text, sorted, i) != ""
    ensures Unrolls(TailFrom(text, sorted), HeadAt(text, sorted), i)
  {
    NextSliced(text, sorted, i);
  }

  lemma AllSliced(text: string, sorted: seq<Section>, k: nat)
    requires AllVisible(text, sorted)
    ensures |SlicesFrom(text, sorted, 0)| == |sorted|
    ensures k < |sorted| ==> SlicesFrom(text, sorted, 0)[k] == Titled(sorted[k].title, SliceOf(text, sorted, k))
  {
    var tail, head := TailFrom(text, sorted), HeadAt(text, sorted);
    forall j: nat | j < |sorted|
      ensures Unrolls(tail, head, j)
    {
      SliceUnrolls(text, sorted, j);
    }
    UnrolledAt(tail, head, |sorted|, 0, k);
    assert tail(0) == SlicesFrom(text, sorted, 0);
  }

  lemma DetectedAreSorted(text: string, existing: seq<Section>, level: string -> nat)
    ensures ByStart(Detected(text, existing, level)) == Detected(text, existing, level)
  {
    var secs := Detected(text, existing, level);
    DetectedInOrder(text, existing, level);
    forall j, k | 0 <= j < k < |secs|
      ensures StartsNoLater(secs[j], secs[k])
    {
      assert secs[j].start < secs[k].start;
    }
    SortOfSorted(StartsNoLater, secs);
  }

  lemma DetectedAreVisible(text: string, existing: seq<Section>, level: string -> nat)
    requires Detected(text, existing, level) != [Section("Document", 1, 0)]
    ensures AllVisible(text, Detected(text, existing, level))
  {
    forall j: nat | j < |Detected(text, existing, level)|
      ensures SliceOf(text, Detected(text, existing, level), j) != ""
    {
      var _ := SliceHoldsTitle(text, existing, level, j);
    }
  }

  /** Each detected section has exactly one slice, in order, from its start up to the next one's, under
      its own title, which occurs in it. */
  lemma DetectedSlices(text: string, existing: seq<Section>, level: string -> nat, i: nat) returns (pos: nat)
    requires i < |Detected(text, existing, level)| && Detected(text, existing, level) != [Section("Document", 1, 0)]
    ensures var secs := Detected(text, existing, level);
            var slices := SlicesFrom(text, ByStart(secs), 0);
            && |slices| == |secs|
            && slices[i] == Titled(secs[i].title, SliceOf(text, secs, i))
            && OccursAt(slices[i].text, pos, slices[i].title)
  {
    DetectedAreSorted(text, existing, level);
    DetectedAreVisible(text, existing, level);
    AllSliced(text, Detected(text, existing, level), i);
    pos := SliceHoldsTitle(text, existing, level, i);
  }
}
