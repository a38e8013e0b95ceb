/** The paragraph-level chunker: paragraphs, sentences, packing and overlap. */
module ParagraphChunker {
  import opened Options
  import opened TextOverlap
  import opened Text
  import opened Merging
  import opened Packing

  const TARGET_TOKENS: nat := 300
  const MIN_TOKENS: nat := 100
  const MAX_TOKENS: nat := 500
  const OVERLAP_TOKENS: nat := 50

  // ----- Paragraphs -----

  /** sep is a match of the pattern \n\s*\n. */
  predicate IsBreak(sep: string) {
    |sep| >= 2 && sep[0] == '\n' && sep[|sep| - 1] == '\n' && AllSpace(sep)
  }

  /** One more than the index of the last newline in the leading white space of s, or 0. */
  function LastNewline(s: string): (n: nat)
    ensures n <= |s|
    ensures n > 0 ==> s[n - 1] == '\n' && AllSpace(s[..n])
    ensures forall m :: n < m <= |s| && s[m - 1] == '\n' ==> !AllSpace(s[..m])
  {
    if s == "" || !IsSpace(s[0]) then 0
    else
      var n := LastNewline(s[1..]);
      assert forall m :: 1 < m <= |s| ==> s[..m][1..] == s[1..][..m - 1];
      assert forall m :: 1 < m <= |s| && AllSpace(s[..m]) ==> AllSpace(s[..m][1..]);
      if n > 0 then n + 1 else if s[0] == '\n' then 1 else 0
  }

  /** The length of the paragraph break that starts s, or 0 when none does. */
  function BreakLength(s: string): (n: nat)
    ensures n <= |s|
  {
    if s != "" && s[0] == '\n' && LastNewline(s[1..]) > 0 then LastNewline(s[1..]) + 1 else 0
  }

  /** The break found is the longest match of the pattern at the start of s. */
  lemma BreakIsLongestMatch(s: string, m: nat)
    requires m <= |s|
    ensures BreakLength(s) > 0 ==> IsBreak(s[..BreakLength(s)])
    ensures IsBreak(s[..m]) ==> m <= BreakLength(s)
  {
    if s != "" {
      var n := LastNewline(s[1..]);
      if n > 0 {
        assert forall i :: 1 <= i <= n ==> s[i] == s[1..][..n][i - 1];
      }
      if IsBreak(s[..m]) {
        assert s[1..][m - 2] == '\n';
        assert s[1..][..m - 1] == s[..m][1..];
        assert AllSpace(s[1..][..m - 1]);
      }
    }
  }

  /** re.split on paragraph breaks. */
  function SplitAtBreaks(s: string): (pieces: seq<string>)
    ensures pieces != []
    decreases |s|
  {
    if s == "" then [""]
    else if BreakLength(s) > 0 then [""] + SplitAtBreaks(s[BreakLength(s)..])
    else PutFirst(s[0], SplitAtBreaks(s[1..]))
  }

  /** later, preceded by the stripped piece if anything is left of it. */
  function Keep(piece: string, later: seq<string>): seq<string> {
    if Strip(piece) == "" then later else [Strip(piece)] + later
  }

  lemma VisibleKeep(piece: string, later: seq<string>)
    ensures Visible(Flatten(Keep(piece, later))) == Visible(piece) + Visible(Flatten(later))
  {
    VisibleStrip(piece);
    if Strip(piece) != "" {
      VisiblePrepend(Strip(piece), later);
    }
  }

  /** The stripped pieces that are not empty. */
  function StripAll(pieces: seq<string>): seq<string> {
    if pieces == [] then [] else Keep(pieces[0], StripAll(pieces[1..]))
  }

  function Paragraphs(text: string): seq<string> {
    if text == "" then [] else StripAll(SplitAtBreaks(text))
  }

  ghost predicate HasNoBreak(s: string) {
    forall i, j :: 0 <= i <= j <= |s| ==> !IsBreak(s[i..j])
  }

  lemma {:induction false} VisibleStripAll(pieces: seq<string>)
    ensures Visible(Flatten(StripAll(pieces))) == Visible(Flatten(pieces))
  {
    if pieces != [] {
      VisibleStripAll(pieces[1..]);
      VisibleKeep(pieces[0], StripAll(pieces[1..]));
      VisiblePrepend(pieces[0], pieces[1..]);
      assert [pieces[0]] + pieces[1..] == pieces;
    }
  }

  lemma VisibleAcrossBreak(s: string)
    ensures Visible(s[BreakLength(s)..]) == Visible(s)
  {
    var n := BreakLength(s);
    BreakIsLongestMatch(s, n);
    VisibleOfSpace(s[..n]);
    assert s == s[..n] + s[n..];
    VisibleConcat(s[..n], s[n..]);
  }

  lemma {:induction false} VisibleSplit(s: string)
    ensures Visible(Flatten(SplitAtBreaks(s))) == Visible(s)
    decreases |s|
  {
    if s == "" {
    } else if BreakLength(s) > 0 {
      VisibleSplit(s[BreakLength(s)..]);
      VisibleAcrossBreak(s);
      VisiblePrepend("", SplitAtBreaks(s[BreakLength(s)..]));
    } else {
      VisibleSplit(s[1..]);
      VisiblePutFirst(s[0], SplitAtBreaks(s[1..]));
      VisibleConcat([s[0]], Flatten(SplitAtBreaks(s[1..])));
      VisibleConcat([s[0]], s[1..]);
      assert [s[0]] + s[1..] == s;
    }
  }

  /** The first piece is the text up to the first place where a break starts. */
  lemma {:induction false} FirstPiece(s: string)
    ensures var p := SplitAtBreaks(s)[0];
            p <= s && forall i :: 0 <= i < |p| ==> BreakLength(s[i..]) == 0
  {
    if s != "" && BreakLength(s) == 0 {
      FirstPiece(s[1..]);
      assert forall i :: 1 <= i < |s| ==> s[i..] == s[1..][i - 1..];
    }
  }

  lemma SliceOfPrefix(p: string, s: string, i: nat, j: nat)
    requires p <= s && i <= j <= |p|
    ensures s[i..][..j - i] == p[i..j]
  {
    forall k | 0 <= k < j - i
      ensures s[i..][..j - i][k] == p[i..j][k]
    {
      assert s[i + k] == p[i + k];
    }
  }

  lemma PrefixHasNoBreak(p: string, s: string, i: nat, j: nat)
    requires p <= s && i <= j <= |p| && (i < |p| ==> BreakLength(s[i..]) == 0)
    ensures !IsBreak(p[i..j])
  {
    SliceOfPrefix(p, s, i, j);
    BreakIsLongestMatch(s[i..], j - i);
  }

  lemma FirstHasNoBreak(s: string)
    ensures HasNoBreak(SplitAtBreaks(s)[0])
  {
    var p := SplitAtBreaks(s)[0];
    FirstPiece(s);
    forall i, j | 0 <= i <= j <= |p|
      ensures !IsBreak(p[i..j])
    {
      PrefixHasNoBreak(p, s, i, j);
    }
  }

  lemma {:induction false} PieceHasNoBreak(s: string, k: nat)
    requires k < |SplitAtBreaks(s)|
    ensures HasNoBreak(SplitAtBreaks(s)[k])
    decreases |s|
  {
    if k == 0 {
      FirstHasNoBreak(s);
    } else if BreakLength(s) > 0 {
      PieceHasNoBreak(s[BreakLength(s)..], k - 1);
    } else {
      PieceHasNoBreak(s[1..], k);
    }
  }

  lemma NoBreakInSlice(s: string, a: nat, b: nat)
    requires HasNoBreak(s) && a <= b <= |s|
    ensures HasNoBreak(s[a..b])
  {
    forall i, j | 0 <= i <= j <= b - a
      ensures !IsBreak(s[a..b][i..j])
    {
      SliceOfSlice(s, a, b, i, j);
    }
  }

  lemma {:induction false} StripAllShape(pieces: seq<string>)
    requires forall k :: 0 <= k < |pieces| ==> HasNoBreak(pieces[k])
    ensures forall p :: p in StripAll(pieces) ==> p != "" && Stripped(p) && HasNoBreak(p)
  {
    if pieces != [] {
      var s := pieces[0];
      var a, b := StripParts(s);
      NoBreakInSlice(s, |a|, |a| + |Strip(s)|);
      assert s[|a|..|a| + |Strip(s)|] == Strip(s);
      StripAllShape(pieces[1..]);
    }
  }

  /** Paragraphs keep all visible text in order; each is non-empty, stripped, and contains no
      paragraph break, so the cuts are made at every break. */
  lemma ParagraphsAreFaithful(text: string)
    ensures Visible(Flatten(Paragraphs(text))) == Visible(text)
    ensures forall p :: p in Paragraphs(text) ==> p != "" && Stripped(p) && HasNoBreak(p)
  {
    if text != "" {
      VisibleStripAll(SplitAtBreaks(text));
      VisibleSplit(text);
      forall k | 0 <= k < |SplitAtBreaks(text)|
        ensures HasNoBreak(SplitAtBreaks(text)[k])
      {
        PieceHasNoBreak(text, k);
      }
      StripAllShape(SplitAtBreaks(text));
    }
  }

  /** The pieces with the breaks between them. */
  function Interleaved(pieces: seq<string>, breaks: seq<string>): string
    requires |pieces| == |breaks| + 1
  {
    if breaks == [] then pieces[0]
    else if pieces[0] == "" then breaks[0] + Interleaved(pieces[1..], breaks[1..])
    else pieces[0] + (breaks[0] + Interleaved(pieces[1..], breaks[1..]))
  }

  lemma InterleavedPut(c: char, pieces: seq<string>, breaks: seq<string>)
    requires |pieces| == |breaks| + 1
    ensures Interleaved(PutFirst(c, pieces), breaks) == [c] + Interleaved(pieces, breaks)
  {
    if breaks != [] {
      var rest := breaks[0] + Interleaved(pieces[1..], breaks[1..]);
      assert PutFirst(c, pieces)[1..] == pieces[1..];
      ConcatIsAssociative([c], pieces[0], rest);
      if pieces[0] == "" {
        assert [c] + pieces[0] == [c];
      }
    }
  }

  lemma InterleavedBreak(sep: string, pieces: seq<string>, breaks: seq<string>)
    requires |pieces| == |breaks| + 1
    ensures Interleaved([""] + pieces, [sep] + breaks) == sep + Interleaved(pieces, breaks)
  {
    assert ([""] + pieces)[1..] == pieces && ([sep] + breaks)[1..] == breaks;
  }

  /** The text is cut at paragraph breaks only: it is the pieces with a break between each two. */
  lemma {:induction false} CutAtBreaks(s: string) returns (breaks: seq<string>)
    ensures |SplitAtBreaks(s)| == |breaks| + 1 && Interleaved(SplitAtBreaks(s), breaks) == s
    ensures forall b :: b in breaks ==> IsBreak(b)
    decreases |s|
  {
    breaks := [];
    if s != "" {
      if BreakLength(s) > 0 {
        breaks := CutAtFirstBreak(s, BreakLength(s));
      } else {
        breaks := CutAtBreaks(s[1..]);
        InterleavedPut(s[0], SplitAtBreaks(s[1..]), breaks);
        assert [s[0]] + s[1..] == s;
      }
    }
  }

  lemma {:induction false} CutAtFirstBreak(s: string, n: nat) returns (breaks: seq<string>)
    requires n == BreakLength(s) > 0
    ensures |SplitAtBreaks(s)| == |breaks| + 1 && Interleaved(SplitAtBreaks(s), breaks) == s
    ensures forall b :: b in breaks ==> IsBreak(b)
    decreases |s|, 0
  {
    var later := CutAtBreaks(s[n..]);
    BreakIsLongestMatch(s, n);
    InterleavedBreak(s[..n], SplitAtBreaks(s[n..]), later);
    breaks := [s[..n]] + later;
    assert s[..n] + s[n..] == s;
  }

  // ----- Sentences -----

  predicate IsBoundary(c: char) {
    c == '\U{3002}' || c == '\U{ff01}' || c == '\U{ff1f}' || c == '.' || c == '!' || c == '?' || c == '\n'
  }

  /** The pattern's split with its captured boundaries: text, boundary, text, ..., text. */
  function Parts(s: string): (parts: seq<string>)
    ensures |parts| % 2 == 1
    decreases |s|
  {
    if s == "" then [""]
    else if IsBoundary(s[0]) then ["", [s[0]]] + Parts(s[1..])
    else PutFirst(s[0], Parts(s[1..]))
  }

  /** Each text with the boundary that ends it, stripped, where anything is left. */
  function Glue(parts: seq<string>): seq<string> {
    if |parts| == 0 then []
    else if |parts| == 1 then Keep(parts[0], [])
    else Keep(parts[0] + parts[1], Glue(parts[2..]))
  }

  function Sentences(text: string): seq<string> {
    var sentences := Glue(Parts(text));
    if sentences == [] then [text] else sentences
  }

  method SplitSentences(text: string) returns (sentences: seq<string>)
    ensures sentences == Sentences(text)
  {
    var parts := Parts(text);
    sentences := [];
    var i := 0;
    while i < |parts| - 1
      invariant i % 2 == 0 && i <= |parts| - 1
      invariant Remains(Glue(parts), sentences, Glue(parts[i..]))
    {
      var sentence := parts[i] + parts[i + 1];
      assert parts[i..][2..] == parts[i + 2..];
      if Strip(sentence) != "" {
        Advance(Glue(parts), sentences, [Strip(sentence)], Glue(parts[i + 2..]));
        sentences := sentences + [Strip(sentence)];
      }
      i := i + 2;
    }
    if |parts| % 2 == 1 && Strip(parts[|parts| - 1]) != "" {
      sentences := sentences + [Strip(parts[|parts| - 1])];
    }
    if sentences == [] {
      sentences := [text];
    }
  }

  /** A sentence ends at its first boundary. */
  ghost predicate OneSentence(s: string) {
    forall i :: 0 <= i < |s| - 1 ==> !IsBoundary(s[i])
  }

  lemma VisibleEmptyFirst(parts: seq<string>)
    ensures Visible(Flatten([""] + parts)) == Visible(Flatten(parts))
  {
    VisiblePrepend("", parts);
  }

  lemma {:induction false} VisibleParts(s: string)
    ensures Visible(Flatten(Parts(s))) == Visible(s)
    decreases |s|
  {
    if s == "" {
    } else {
      VisibleParts(s[1..]);
      var later := Parts(s[1..]);
      VisibleConcat([s[0]], s[1..]);
      assert [s[0]] + s[1..] == s;
      if IsBoundary(s[0]) {
        VisibleEmptyFirst([[s[0]]] + later);
        assert Parts(s) == [""] + ([[s[0]]] + later);
        VisiblePrepend([s[0]], later);
      } else {
        VisiblePutFirst(s[0], later);
        VisibleConcat([s[0]], Flatten(later));
      }
    }
  }

  /** Texts hold no boundary, and each boundary is a single character. */
  ghost predicate Alternating(parts: seq<string>) {
    && (forall k, i :: 0 <= k < |parts| && k % 2 == 0 && 0 <= i < |parts[k]| ==> !IsBoundary(parts[k][i]))
    && (forall k :: 0 <= k < |parts| && k % 2 == 1 ==> |parts[k]| == 1)
  }

  lemma AlternatingPair(c: char, parts: seq<string>)
    requires Alternating(parts)
    ensures Alternating(["", [c]] + parts)
  {
    var r := ["", [c]] + parts;
    assert forall k :: 2 <= k < |r| ==> r[k] == parts[k - 2] && (k - 2) % 2 == k % 2;
  }

  lemma {:induction false} PartsAlternate(s: string)
    ensures Alternating(Parts(s))
    decreases |s|
  {
    if s != "" {
      PartsAlternate(s[1..]);
      if IsBoundary(s[0]) {
        AlternatingPair(s[0], Parts(s[1..]));
      }
    }
  }

  lemma {:induction false} VisibleGlue(parts: seq<string>)
    ensures Visible(Flatten(Glue(parts))) == Visible(Flatten(parts))
  {
    if |parts| == 1 {
      VisibleKeep(parts[0], []);
      FlattenSingle(parts[0]);
    } else if |parts| > 1 {
      var s := parts[0] + parts[1];
      VisibleGlue(parts[2..]);
      VisibleKeep(s, Glue(parts[2..]));
      assert parts[1..][1..] == parts[2..];
      assert Flatten(parts) == s + Flatten(parts[2..]);
      VisibleConcat(s, Flatten(parts[2..]));
    }
  }

  lemma {:induction false} GlueStopsAtBoundary(parts: seq<string>)
    requires Alternating(parts)
    ensures forall q :: q in Glue(parts) ==> OneSentence(q)
  {
    if |parts| == 1 {
      OneSentenceStrip(parts[0]);
    } else if |parts| > 1 {
      GlueStopsAtBoundary(parts[2..]);
      OneSentenceStrip(parts[0] + parts[1]);
    }
  }

  lemma OneSentenceStrip(s: string)
    requires OneSentence(s)
    ensures OneSentence(Strip(s))
  {
    var a, b := StripParts(s);
    assert forall i :: 0 <= i < |Strip(s)| ==> Strip(s)[i] == s[|a| + i];
  }

  /** Sentences keep all visible text in order, there is always one, and (unless the text is
      blank) no sentence runs past a boundary. */
  lemma SentencesAreFaithful(text: string)
    ensures Visible(Flatten(Sentences(text))) == Visible(text)
    ensures Sentences(text) != []
    ensures !AllSpace(text) ==> forall q :: q in Sentences(text) ==> OneSentence(q)
  {
    VisibleParts(text);
    PartsAlternate(text);
    VisibleGlue(Parts(text));
    GlueStopsAtBoundary(Parts(text));
    VisibleOfSpace(text);
    if Glue(Parts(text)) == [] {
      FlattenSingle(text);
    }
  }

  /** The text cut after each boundary character. */
  function Segments(s: string): (segments: seq<string>)
    ensures segments != [] && (segments[0] != "" || |segments| == 1)
    decreases |s|
  {
    if s == "" then [""]
    else if IsBoundary(s[0]) then [[s[0]]] + Segments(s[1..])
    else PutFirst(s[0], Segments(s[1..]))
  }

  /** The segments are cut after each boundary and nowhere else. */
  lemma {:induction false} SegmentsCutIff(s: string, j: nat)
    requires j < |s|
    ensures CutAt(Segments(s), j + 1) <==> IsBoundary(s[j])
    decreases |s|
  {
    var rest := Segments(s[1..]);
    CutAfterFirst(s[0], rest, j + 1);
    CutWithFirst(s[0], rest, j + 1);
    if j > 0 {
      SegmentsCutIff(s[1..], j - 1);
    }
  }

  lemma {:induction false} SegmentsKeepText(s: string)
    ensures Flatten(Segments(s)) == s
    decreases |s|
  {
    if s == "" {
      FlattenSingle("");
    } else {
      var rest := Segments(s[1..]);
      SegmentsKeepText(s[1..]);
      FlattenPutFirst(s[0], rest);
      assert ([[s[0]]] + rest)[1..] == rest;
      assert [s[0]] + s[1..] == s;
    }
  }

  /** Each text with the boundary that ends it. */
  function Glued(parts: seq<string>): (glued: seq<string>)
    requires |parts| % 2 == 1
    ensures glued != []
  {
    if |parts| == 1 then parts else [parts[0] + parts[1]] + Glued(parts[2..])
  }

  lemma GluedStep(parts: seq<string>)
    requires |parts| % 2 == 1 && |parts| > 1
    ensures Glued(parts)[0] == parts[0] + parts[1] && Glued(parts)[1..] == Glued(parts[2..])
  {
  }

  lemma SecondStays(c: char, parts: seq<string>)
    requires |parts| > 1
    ensures PutFirst(c, parts)[1] == parts[1] && PutFirst(c, parts)[2..] == parts[2..]
  {
    assert PutFirst(c, parts)[1..][0] == parts[1..][0] && PutFirst(c, parts)[1..][1..] == parts[1..][1..];
  }

  lemma FirstAndRestEqual(a: seq<string>, b: seq<string>)
    requires a != [] && b != [] && a[0] == b[0] && a[1..] == b[1..]
    ensures a == b
  {
    assert a == [a[0]] + a[1..] && b == [b[0]] + b[1..];
  }

  lemma GlueFirst(c: char, parts: seq<string>)
    requires |parts| % 2 == 1
    ensures Glued(PutFirst(c, parts)) == PutFirst(c, Glued(parts))
  {
    if |parts| > 1 {
      SecondStays(c, parts);
      GluedStep(parts);
      GluedStep(PutFirst(c, parts));
      ConcatIsAssociative([c], parts[0], parts[1]);
      FirstAndRestEqual(Glued(PutFirst(c, parts)), PutFirst(c, Glued(parts)));
    }
  }

  lemma {:induction false} GluedAreSegments(s: string)
    ensures Glued(Parts(s)) == Segments(s)
    decreases |s|
  {
    if s != "" {
      GluedAreSegments(s[1..]);
      if IsBoundary(s[0]) {
        var parts := ["", [s[0]]] + Parts(s[1..]);
        assert parts[2..] == Parts(s[1..]) && "" + [s[0]] == [s[0]];
      } else {
        GlueFirst(s[0], Parts(s[1..]));
      }
    }
  }

  lemma {:induction false} GlueIsStripped(parts: seq<string>)
    requires |parts| % 2 == 1
    ensures Glue(parts) == StripAll(Glued(parts))
  {
    if |parts| > 1 {
      GlueIsStripped(parts[2..]);
      assert ([parts[0] + parts[1]] + Glued(parts[2..]))[1..] == Glued(parts[2..]);
    } else {
      assert parts[1..] == [];
    }
  }

  /** The sentences are the segments between boundaries, stripped and without blank ones, or the text
      itself when all are blank. */
  lemma SentencesAreSegments(text: string)
    ensures Flatten(Segments(text)) == text
    ensures Sentences(text) == if StripAll(Segments(text)) == [] then [text] else StripAll(Segments(text))
  {
    SegmentsKeepText(text);
    GluedAreSegments(text);
    GlueIsStripped(Parts(text));
  }

  // ----- Packing -----

  /** An oversized paragraph is cut into the fewest runs of sentences within the limit. */
  method SplitOversizedParagraph(para: string, tokens: string -> nat, maxTokens: nat) returns (subChunks: seq<string>)
    ensures subChunks == SentenceChunks(para, tokens, maxTokens)
  {
    var sentences := SplitSentences(para);
    subChunks := [];
    var current: seq<string> := [];
    var currentTokens := 0;
    ghost var expected := Greedy(tokens, maxTokens, [], sentences);
    ghost var groups: seq<seq<string>> := [];
    for i := 0 to |sentences|
      invariant currentTokens == Weight(tokens, current)
      invariant subChunks == JoinEach(" ", groups)
      invariant Remains(expected, groups, Greedy(tokens, maxTokens, current, sentences[i..]))
    {
      var sentence := sentences[i];
      var sentTokens := tokens(sentence);
      assert sentences[i..][1..] == sentences[i + 1..];
      if currentTokens + sentTokens > maxTokens && current != [] {
        Advance(expected, groups, [current], Greedy(tokens, maxTokens, [sentence], sentences[i + 1..]));
        subChunks := subChunks + [Join(" ", current)];
        groups := groups + [current];
        current := [sentence];
        currentTokens := sentTokens;
      } else {
        WeightSnoc(tokens, current, sentence);
        current := current + [sentence];
        currentTokens := currentTokens + sentTokens;
      }
    }
    if current != [] {
      Advance(expected, groups, [current], []);
      subChunks := subChunks + [Join(" ", current)];
      groups := groups + [current];
    }
    assert groups == expected;
  }

  function SentenceChunks(para: string, tokens: string -> nat, maxTokens: nat): seq<string> {
    JoinEach(" ", Greedy(tokens, maxTokens, [], Sentences(para)))
  }

  function Render(b: Block<string>, tokens: string -> nat, maxTokens: nat): seq<string> {
    match b
    case Merged(items) => [Join("\n\n", items)]
    case Oversized(item) => SentenceChunks(item, tokens, maxTokens)
  }

  function RenderAll(bs: seq<Block<string>>, tokens: string -> nat, maxTokens: nat): seq<string> {
    if bs == [] then [] else Render(bs[0], tokens, maxTokens) + RenderAll(bs[1..], tokens, maxTokens)
  }

  /** A loop that still owes the rendering of a block and later ones emits the block. */
  lemma EmitBlock(expected: seq<string>, chunks: seq<string>, b: Block<string>, later: seq<Block<string>>,
                  tokens: string -> nat, maxTokens: nat)
    requires Remains(expected, chunks, RenderAll([b] + later, tokens, maxTokens))
    ensures Remains(expected, chunks + Render(b, tokens, maxTokens), RenderAll(later, tokens, maxTokens))
  {
    assert ([b] + later)[1..] == later;
    Advance(expected, chunks, Render(b, tokens, maxTokens), RenderAll(later, tokens, maxTokens));
  }

  /** The chunks before overlap is added. */
  function PlainChunks(text: string, tokens: string -> nat, lim: Limits): seq<string> {
    RenderAll(Blocks(tokens, lim, [], Paragraphs(text)), tokens, lim.max)
  }

  // ----- Overlap -----

  const SEPARATOR_COUNT := 7

  function Separator(i: nat): string {
    match i
    case 0 => ". "
    case 1 => ".\n"
    case 2 => "\U{3002}"
    case 3 => "\U{ff01}"
    case 4 => "\U{ff1f}"
    case 5 => "\n\n"
    case _ => "\n"
  }

  function Overlap(text: string, overlapTokens: nat): string {
    Strip(CutAfter(LastChars(text, overlapTokens * 3), Separator, SEPARATOR_COUNT, 0, 0))
  }

  method ExtractOverlap(text: string, overlapTokens: nat) returns (r: string)
    ensures r == Overlap(text, overlapTokens)
  {
    if text == "" {
      EmptyOverlap(overlapTokens);
      return "";
    }
    var overlap := TakeEnd(text, overlapTokens * 3);
    overlap := CutAtSeparator(overlap, Separator, SEPARATOR_COUNT, 0);
    r := Strip(overlap);
  }

  lemma EmptyOverlap(overlapTokens: nat)
    ensures Overlap("", overlapTokens) == ""
  {
    var k := CutIsSuffix("", Separator, SEPARATOR_COUNT, 0);
  }

  /** The separators in the order they are tried. */
  lemma SeparatorsInOrder()
    ensures [". ", ".\n", "\U{3002}", "\U{ff01}", "\U{ff1f}", "\n\n", "\n"]
         == [Separator(0), Separator(1), Separator(2), Separator(3), Separator(4), Separator(5), Separator(6)]
    ensures SEPARATOR_COUNT == 7
  {
  }

  /** Among the last 3 * overlapTokens characters, the overlap is what follows the first occurrence of
      the first separator found past their start, or all of them, stripped. */
  lemma OverlapIsCut(text: string, overlapTokens: nat) returns (n: nat, idx: int, cut: string)
    ensures IsCut(LastChars(text, overlapTokens * 3), Separator, SEPARATOR_COUNT, 0, 0, n, idx, cut)
    ensures Overlap(text, overlapTokens) == Strip(cut)
  {
    n, idx := CutIsAfterFirst(LastChars(text, overlapTokens * 3), Separator, SEPARATOR_COUNT, 0, 0);
    cut := CutAfter(LastChars(text, overlapTokens * 3), Separator, SEPARATOR_COUNT, 0, 0);
  }

  /** The overlap is text[from..to], the tail of the text up to trailing white space, and it
      comes from the last 3 * overlapTokens characters. */
  lemma OverlapIsTail(text: string, overlapTokens: nat) returns (from: nat, to: nat)
    ensures from <= to <= |text| <= from + 3 * overlapTokens
    ensures Overlap(text, overlapTokens) == text[from..to] && AllSpace(text[to..])
  {
    var last := LastChars(text, overlapTokens * 3);
    var k := CutIsSuffix(last, Separator, SEPARATOR_COUNT, 0);
    var start := |text| - |last| + k;
    assert last[k..] == text[start..];
    from, to := StripSlice(text, start);
  }

  lemma StripSlice(text: string, start: nat) returns (from: nat, to: nat)
    requires start <= |text|
    ensures start <= from <= to <= |text|
    ensures Strip(text[start..]) == text[from..to] && AllSpace(text[to..])
  {
    var f, t := StripWithin(text[start..]);
    SliceOfSlice(text, start, |text|, f, t);
    assert text[start..|text|] == text[start..];
    from, to := start + f, start + t;
    assert forall i :: 0 <= i < |text| - to ==> text[to..][i] == text[start..][t..][i];
  }

  function OverlapChunk(prev: string, chunk: string, overlapTokens: nat): string {
    Overlap(prev, overlapTokens) + "\n\n" + chunk
  }

  /** Chunk i with its overlap: the first has none. */
  function OverlappedChunk(chunks: seq<string>, overlapTokens: nat, i: nat): string
    requires i < |chunks|
  {
    if i == 0 then chunks[0] else OverlapChunk(chunks[i - 1], chunks[i], overlapTokens)
  }

  function WithOverlap(chunks: seq<string>, overlapTokens: nat): (r: seq<string>)
    ensures |r| == |chunks|
  {
    if overlapTokens > 0 && |chunks| > 1 then
      seq(|chunks|, i requires 0 <= i < |chunks| => OverlappedChunk(chunks, overlapTokens, i))
    else chunks
  }

  lemma OverlappedAt(chunks: seq<string>, overlapTokens: nat, i: nat)
    requires i < |chunks| && overlapTokens > 0
    ensures WithOverlap(chunks, overlapTokens)[i] == OverlappedChunk(chunks, overlapTokens, i)
  {
  }

  /** Each chunk still ends with the chunk it was made from; what precedes it is a blank line
      and a tail of the previous plain chunk (not of the overlapped one), cut from its last
      3 * overlapTokens characters. */
  lemma OverlapKeepsChunks(chunks: seq<string>, overlapTokens: nat, i: nat) returns (from: nat, to: nat)
    requires 0 < i < |chunks| && overlapTokens > 0
    ensures WithOverlap(chunks, overlapTokens)[0] == chunks[0]
    ensures from <= to <= |chunks[i - 1]| <= from + 3 * overlapTokens && AllSpace(chunks[i - 1][to..])
    ensures WithOverlap(chunks, overlapTokens)[i] == chunks[i - 1][from..to] + "\n\n" + chunks[i]
  {
    from, to := OverlapIsTail(chunks[i - 1], overlapTokens);
    OverlappedAt(chunks, overlapTokens, 0);
    OverlappedAt(chunks, overlapTokens, i);
  }

  // ----- The chunker -----

  method ChunkParagraphLevel(text: string, tokens: string -> nat, target: Option<nat>, min: Option<nat>, max: Option<nat>,
                             overlap: Option<nat>)
      returns (chunks: seq<string>)
    ensures var lim := ParagraphLimits(target, min, max);
            chunks == WithOverlap(PlainChunks(text, tokens, lim), OrDefault(overlap, OVERLAP_TOKENS))
  {
    var lim := ParagraphLimits(target, min, max);
    var overlapTokens := OrDefault(overlap, OVERLAP_TOKENS);
    chunks := PackParagraphs(Paragraphs(text), tokens, lim);
    if overlapTokens > 0 && |chunks| > 1 {
      chunks := AddOverlap(chunks, overlapTokens);
    }
  }

  method PackParagraphs(paragraphs: seq<string>, tokens: string -> nat, lim: Limits) returns (chunks: seq<string>)
    ensures chunks == RenderAll(Blocks(tokens, lim, [], paragraphs), tokens, lim.max)
    ensures lim.min >= 1 ==> exists bs :: Packs(tokens, lim, paragraphs, bs) && chunks == RenderAll(bs, tokens, lim.max)
  {
    chunks := [];
    var current: seq<string> := [];
    var currentTokens := 0;
    ghost var expected := RenderAll(Blocks(tokens, lim, [], paragraphs), tokens, lim.max);
    for i := 0 to |paragraphs|
      invariant currentTokens == Weight(tokens, current)
      invariant Remains(expected, chunks, RenderAll(Blocks(tokens, lim, current, paragraphs[i..]), tokens, lim.max))
    {
      var para := paragraphs[i];
      var paraTokens := tokens(para);
      ghost var rest := paragraphs[i + 1..];
      assert paragraphs[i..][1..] == rest;
      if paraTokens == 0 {
        continue;
      }
      if paraTokens > lim.max {
        ghost var later := Blocks(tokens, lim, [], rest);
        if current != [] {
          EmitBlock(expected, chunks, Merged(current), [Oversized(para)] + later, tokens, lim.max);
          chunks := chunks + [Join("\n\n", current)];
          current := [];
          currentTokens := 0;
        }
        EmitBlock(expected, chunks, Oversized(para), later, tokens, lim.max);
        var subChunks := SplitOversizedParagraph(para, tokens, lim.max);
        chunks := chunks + subChunks;
        continue;
      }
      if currentTokens + paraTokens > lim.target && currentTokens >= lim.min {
        EmitBlock(expected, chunks, Merged(current), Blocks(tokens, lim, [para], rest), tokens, lim.max);
        chunks := chunks + [Join("\n\n", current)];
        current := [para];
        currentTokens := paraTokens;
      } else {
        WeightSnoc(tokens, current, para);
        current := current + [para];
        currentTokens := currentTokens + paraTokens;
      }
    }
    if current != [] {
      EmitBlock(expected, chunks, Merged(current), [], tokens, lim.max);
      chunks := chunks + [Join("\n\n", current)];
    }
    if lim.min >= 1 {
      BlocksPack(tokens, lim, paragraphs);
    }
  }

  method AddOverlap(chunks: seq<string>, overlapTokens: nat) returns (overlapped: seq<string>)
    requires overlapTokens > 0 && |chunks| > 1
    ensures overlapped == WithOverlap(chunks, overlapTokens)
  {
    ghost var expected := WithOverlap(chunks, overlapTokens);
    overlapped := [chunks[0]];
    FirstOverlapped(chunks, overlapTokens);
    for i := 1 to |chunks|
      invariant overlapped == expected[..i]
    {
      var chunk := PrependOverlap(chunks[i - 1], chunks[i], overlapTokens);
      NextOverlapped(chunks, overlapTokens, i, chunk);
      overlapped := overlapped + [chunk];
    }
    assert expected[..|expected|] == expected;
  }

  lemma FirstOverlapped(chunks: seq<string>, overlapTokens: nat)
    requires overlapTokens > 0 && |chunks| > 1
    ensures [chunks[0]] == WithOverlap(chunks, overlapTokens)[..1]
  {
    OverlappedAt(chunks, overlapTokens, 0);
  }

  lemma NextOverlapped(chunks: seq<string>, overlapTokens: nat, i: nat, chunk: string)
    requires overlapTokens > 0 && 0 < i < |chunks| && chunk == OverlapChunk(chunks[i - 1], chunks[i], overlapTokens)
    ensures WithOverlap(chunks, overlapTokens)[..i] + [chunk] == WithOverlap(chunks, overlapTokens)[..i + 1]
  {
    OverlappedAt(chunks, overlapTokens, i);
    TakeNext(WithOverlap(chunks, overlapTokens), i);
  }

  method PrependOverlap(prev: string, chunk: string, overlapTokens: nat) returns (r: string)
    ensures r == OverlapChunk(prev, chunk, overlapTokens)
  {
    var overlapText := ExtractOverlap(prev, overlapTokens);
    r := overlapText + "\n\n" + chunk;
  }

  function ParagraphLimits(target: Option<nat>, min: Option<nat>, max: Option<nat>): (lim: Limits)
    ensures lim.target >= 1 && lim.min >= 1 && lim.max >= 1
  {
    Limits(OrDefault(target, TARGET_TOKENS), OrDefault(min, MIN_TOKENS), OrDefault(max, MAX_TOKENS))
  }

  lemma {:induction false} VisibleRenderAll(bs: seq<Block<string>>, tokens: string -> nat, maxTokens: nat)
    ensures Visible(Flatten(RenderAll(bs, tokens, maxTokens))) == Visible(Flatten(Items(bs)))
  {
    if bs != [] {
      var chunks := Render(bs[0], tokens, maxTokens);
      VisibleRenderAll(bs[1..], tokens, maxTokens);
      VisibleAppend(chunks, RenderAll(bs[1..], tokens, maxTokens));
      VisibleAppend(ItemsOf(bs[0]), Items(bs[1..]));
      VisibleRender(bs[0], tokens, maxTokens);
    }
  }

  lemma VisibleRender(b: Block<string>, tokens: string -> nat, maxTokens: nat)
    ensures Visible(Flatten(Render(b, tokens, maxTokens))) == Visible(Flatten(ItemsOf(b)))
  {
    match b
    case Merged(items) =>
      var s := Join("\n\n", items);
      VisibleJoin("\n\n", items);
      FlattenSingle(s);
    case Oversized(item) =>
      var sentences := Sentences(item);
      GreedyFromStart(tokens, maxTokens, sentences);
      VisibleJoinEach(" ", Greedy(tokens, maxTokens, [], sentences));
      SentencesAreFaithful(item);
      FlattenSingle(item);
  }

  lemma {:induction false} AllPositive<T>(w: T -> nat, xs: seq<T>)
    requires forall x :: x in xs ==> w(x) > 0
    ensures Positive(w, xs) == xs
  {
    if xs != [] {
      AllPositive(w, xs[1..]);
    }
  }

  /** Before overlap, the chunks in order hold exactly the visible text of the document,
      whatever the token counter, as long as it is positive on non-empty text. */
  lemma ChunksConserveText(text: string, tokens: string -> nat, lim: Limits)
    requires forall s :: s != "" ==> tokens(s) > 0
    ensures Visible(Flatten(PlainChunks(text, tokens, lim))) == Visible(text)
  {
    var paragraphs := Paragraphs(text);
    ParagraphsAreFaithful(text);
    AllPositive(tokens, paragraphs);
    BlocksKeepItems(tokens, lim, paragraphs);
    VisibleRenderAll(Blocks(tokens, lim, [], paragraphs), tokens, lim.max);
  }

  /** Overlap cannot be switched off: an overlap of 0 means the default of 50, which changes the
      chunks unless there is at most one. */
  lemma ZeroOverlapIsDefault(chunks: seq<string>)
    ensures OrDefault(Some(0), OVERLAP_TOKENS) == OVERLAP_TOKENS == 50
    ensures WithOverlap(chunks, OrDefault(Some(0), OVERLAP_TOKENS)) == chunks <==> |chunks| <= 1
  {
    if |chunks| > 1 {
      var w := WithOverlap(chunks, OVERLAP_TOKENS);
      OverlappedAt(chunks, OVERLAP_TOKENS, 1);
      assert |w[1]| >= |chunks[1]| + 2;
    }
  }
}
