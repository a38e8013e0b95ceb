/** The highlighted text as the string that is sent, and when the text and its highlights can be
    read off that string. */
module HighlightStrings {
  import opened Highlighting
  import opened Sorting
  import opened Text

  function RenderMark(m: Mark): string {
    match m
    case Ch(c) => [c]
    case Open => "<em>"
    case Close => "</em>"
  }

  /** The marks with the markers spelled out. */
  function Render(marks: seq<Mark>): string {
    if marks == [] then "" else RenderMark(marks[0]) + Render(marks[1..])
  }

  /** What is sent for a text with spans that are sorted already. */
  function Rendered(text: string, spans: seq<Span>): string {
    Render(Marked(text, spans, 0))
  }

  lemma RenderPrepend(m: Mark, later: seq<Mark>)
    ensures Render([m] + later) == RenderMark(m) + Render(later)
  {
    assert ([m] + later)[1..] == later;
  }

  lemma {:induction false} RenderCharsThen(s: string, later: seq<Mark>)
    ensures Render(CharsThen(s, later)) == s + Render(later)
  {
    if s == "" {
      assert s + Render(later) == Render(later);
    } else {
      RenderCharsThen(s[1..], later);
      RenderPrepend(Ch(s[0]), CharsThen(s[1..], later));
      ConcatIsAssociative([s[0]], s[1..], Render(later));
      assert [s[0]] + s[1..] == s;
    }
  }

  lemma {:induction false} RenderChars(s: string)
    ensures Render(Chars(s)) == s
  {
    if s != "" {
      assert Chars(s)[1..] == Chars(s[1..]);
      RenderChars(s[1..]);
    }
  }

  /** A text without highlights is sent as it is. */
  lemma PlainIsText(text: string)
    ensures Rendered(text, []) == text
  {
    assert Slice(text, 0, |text|) == text;
    RenderChars(text);
  }

  lemma RenderFirstSpan(text: string, spans: seq<Span>, cursor: nat)
    requires spans != []
    ensures var s := spans[0];
            Render(Marked(text, spans, cursor))
              == Slice(text, cursor, s.start) + ("<em>" + (Slice(text, s.start, s.end) + ("</em>" + Render(Marked(text, spans[1..], s.end)))))
  {
    var s, later := spans[0], Marked(text, spans[1..], spans[0].end);
    var inside := CharsThen(Slice(text, s.start, s.end), [Close] + later);
    RenderCharsThen(Slice(text, cursor, s.start), [Open] + inside);
    RenderPrepend(Open, inside);
    RenderCharsThen(Slice(text, s.start, s.end), [Close] + later);
    RenderPrepend(Close, later);
  }

  // ----- Texts without markers -----

  ghost predicate MarkerFree(text: string) {
    forall i :: !OccursAt(text, i, "<em>") && !OccursAt(text, i, "</em>")
  }

  /** The marks from number i on are the characters of s. */
  predicate Spells(marks: seq<Mark>, i: nat, s: string) {
    i + |s| <= |marks| && forall k :: 0 <= k < |s| ==> marks[i + k] == Ch(s[k])
  }

  /** No run of characters among the marks spells a marker. */
  ghost predicate Clean(marks: seq<Mark>) {
    forall i: nat :: !Spells(marks, i, "<em>") && !Spells(marks, i, "</em>")
  }

  lemma CleanRest(marks: seq<Mark>)
    requires marks != [] && Clean(marks)
    ensures Clean(marks[1..])
  {
    forall i: nat
      ensures !Spells(marks[1..], i, "<em>") && !Spells(marks[1..], i, "</em>")
    {
      assert !Spells(marks, i + 1, "<em>") && !Spells(marks, i + 1, "</em>");
    }
  }

  /** A string without '<' can only be rendered by characters. */
  lemma {:induction false} SpellsPlain(marks: seq<Mark>, s: string, rest: string)
    requires Render(marks) == s + rest && '<' !in s
    ensures Spells(marks, 0, s)
  {
    if s != "" {
      assert (s + rest)[0] == s[0] && s[0] in s;
      assert marks != [] && marks[0] == Ch(s[0]);
      assert (s + rest)[1..] == s[1..] + rest;
      SpellsPlain(marks[1..], s[1..], rest);
      SpellsFromFirst(marks, s);
    }
  }

  lemma FirstAndRest(s: string, rest: string)
    requires s != ""
    ensures (s + rest)[0] == s[0] && (s + rest)[1..] == s[1..] + rest
  {
  }

  lemma SpellsFromFirst(marks: seq<Mark>, s: string)
    requires marks != [] && s != "" && marks[0] == Ch(s[0]) && Spells(marks[1..], 0, s[1..])
    ensures Spells(marks, 0, s)
  {
    forall k | 0 <= k < |s|
      ensures marks[k] == Ch(s[k])
    {
      if k > 0 {
        assert marks[1..][k - 1] == Ch(s[1..][k - 1]);
      }
    }
  }

  /** A marker that does not come from a marker has been spelled. */
  lemma SpellsMarker(marks: seq<Mark>, s: string, rest: string)
    requires marks != [] && marks[0].Ch? && s != "" && '<' !in s[1..] && Render(marks) == s + rest
    ensures Spells(marks, 0, s)
  {
    FirstAndRest(s, rest);
    FirstAndRest([marks[0].c], Render(marks[1..]));
    assert Render(marks) == [marks[0].c] + Render(marks[1..]);
    assert [marks[0].c][1..] + Render(marks[1..]) == Render(marks[1..]);
    SpellsPlain(marks[1..], s[1..], rest);
    SpellsFromFirst(marks, s);
  }

  lemma MarkerIsMarker(a: seq<Mark>, b: seq<Mark>)
    requires a != [] && b != [] && Clean(b) && Render(a) == Render(b) && !a[0].Ch?
    ensures b[0] == a[0]
  {
    var marker, rest := RenderMark(a[0]), Render(a[1..]);
    assert Render(b) == marker + rest;
    if b[0].Ch? {
      SpellsMarker(b, marker, rest);
    } else {
      assert Render(a)[1] == RenderMark(a[0])[1] && Render(b)[1] == RenderMark(b[0])[1];
    }
  }

  lemma {:induction false} RenderIsInjective(a: seq<Mark>, b: seq<Mark>)
    requires Clean(a) && Clean(b) && Render(a) == Render(b)
    ensures a == b
  {
    if a != [] && b != [] {
      SameFirstMark(a, b);
      CleanRest(a);
      CleanRest(b);
      var n := |RenderMark(a[0])|;
      assert Render(a)[n..] == Render(a[1..]) && Render(b)[n..] == Render(b[1..]);
      RenderIsInjective(a[1..], b[1..]);
      assert a == [a[0]] + a[1..] && b == [b[0]] + b[1..];
    }
  }

  lemma SameFirstMark(a: seq<Mark>, b: seq<Mark>)
    requires a != [] && b != [] && Clean(a) && Clean(b) && Render(a) == Render(b)
    ensures a[0] == b[0]
  {
    if !a[0].Ch? {
      MarkerIsMarker(a, b);
    } else if !b[0].Ch? {
      MarkerIsMarker(b, a);
    } else {
      assert Render(a)[0] == a[0].c && Render(b)[0] == b[0].c;
    }
  }

  lemma {:induction false} SpelledIsPrefix(marks: seq<Mark>, s: string)
    requires Spells(marks, 0, s)
    ensures OccursAt(TextOf(marks), 0, s)
  {
    if s != "" {
      assert marks[0] == Ch(s[0]);
      assert forall k :: 0 <= k < |s| - 1 ==> marks[1..][k] == marks[k + 1] == Ch(s[k + 1]) == Ch(s[1..][k]);
      SpelledIsPrefix(marks[1..], s[1..]);
      forall k | 0 <= k < |s|
        ensures TextOf(marks)[k] == s[k]
      {
        if k > 0 {
          assert TextOf(marks[1..])[0 + (k - 1)] == s[1..][k - 1];
        }
      }
    }
  }

  lemma OccursLater(c: char, text: string, pos: nat, s: string)
    requires OccursAt(text, pos, s)
    ensures OccursAt([c] + text, pos + 1, s)
  {
    forall k | 0 <= k < |s|
      ensures ([c] + text)[pos + 1 + k] == s[k]
    {
      assert text[pos + k] == s[k];
    }
  }

  lemma SpellsEarlier(marks: seq<Mark>, i: nat, s: string)
    requires i > 0 && marks != [] && Spells(marks, i, s)
    ensures Spells(marks[1..], i - 1, s)
  {
    forall k | 0 <= k < |s|
      ensures marks[1..][i - 1 + k] == Ch(s[k])
    {
      assert marks[i + k] == Ch(s[k]);
    }
  }

  /** What the marks spell, the text contains. */
  lemma {:induction false} SpelledOccurs(marks: seq<Mark>, i: nat, s: string) returns (pos: nat)
    requires Spells(marks, i, s)
    ensures OccursAt(TextOf(marks), pos, s)
    decreases |marks|
  {
    if i == 0 || marks == [] {
      SpelledIsPrefix(marks, s);
      pos := 0;
    } else {
      SpellsEarlier(marks, i, s);
      pos := SpelledOccurs(marks[1..], i - 1, s);
      if marks[0].Ch? {
        OccursLater(marks[0].c, TextOf(marks[1..]), pos, s);
        pos := pos + 1;
      }
    }
  }

  lemma MarkedIsClean(text: string, spans: seq<Span>)
    requires Placed(text, spans, 0) && MarkerFree(text)
    ensures Clean(Marked(text, spans, 0))
  {
    var marks := Marked(text, spans, 0);
    TextReadBack(text, spans, 0);
    assert text[0..] == text;
    forall i: nat
      ensures !Spells(marks, i, "<em>") && !Spells(marks, i, "</em>")
    {
      if Spells(marks, i, "<em>") {
        var pos := SpelledOccurs(marks, i, "<em>");
        assert false;
      }
      if Spells(marks, i, "</em>") {
        var pos := SpelledOccurs(marks, i, "</em>");
        assert false;
      }
    }
  }

  /** Among texts that contain neither marker, the string determines the text and the spans. */
  lemma MarkerFreeIsUnambiguous(a: string, spansA: seq<Span>, b: string, spansB: seq<Span>)
    requires Placed(a, spansA, 0) && Placed(b, spansB, 0) && MarkerFree(a) && MarkerFree(b)
    requires Rendered(a, spansA) == Rendered(b, spansB)
    ensures a == b && spansA == spansB
  {
    MarkedIsClean(a, spansA);
    MarkedIsClean(b, spansB);
    RenderIsInjective(Marked(a, spansA, 0), Marked(b, spansB, 0));
    TextReadBack(a, spansA, 0);
    TextReadBack(b, spansB, 0);
    SpansReadBack(a, spansA, 0, 0);
    SpansReadBack(b, spansB, 0, 0);
    assert a[0..] == a && b[0..] == b;
  }

  // ----- Any texts -----

  /** No other text and spans are sent as the same string. */
  ghost predicate OnlyReading(text: string, spans: seq<Span>) {
    forall other, others :: Placed(other, others, 0) && Rendered(other, others) == Rendered(text, spans)
                            ==> other == text && others == spans
  }

  /** The text spells an opening marker and, further on with something between them, a closing one. */
  ghost predicate SpellsPair(text: string) {
    exists i: nat, j: nat :: PairAt(text, i, j)
  }

  predicate PairAt(text: string, i: nat, j: nat) {
    i + 4 < j && OccursAt(text, i, "<em>") && OccursAt(text, j, "</em>")
  }

  /** A highlighted text is sent as a string that spells a pair of markers. */
  lemma HighlightSpellsPair(text: string, spans: seq<Span>)
    requires Placed(text, spans, 0) && spans != []
    ensures SpellsPair(Rendered(text, spans))
  {
    var s := spans[0];
    RenderFirstSpan(text, spans, 0);
    SliceLength(text, 0, s.start);
    SliceLength(text, s.start, s.end);
    var before, inside, after := Slice(text, 0, s.start), Slice(text, s.start, s.end), Render(Marked(text, spans[1..], s.end));
    PairInParts(before, inside, after);
  }

  lemma PairInParts(before: string, inside: string, after: string)
    requires inside != ""
    ensures PairAt(before + ("<em>" + (inside + ("</em>" + after))), |before|, |before| + 4 + |inside|)
  {
    var tail := inside + ("</em>" + after);
    var r := before + ("<em>" + tail);
    assert forall k :: 0 <= k < |"<em>" + tail| ==> r[|before| + k] == ("<em>" + tail)[k];
    assert forall k :: 0 <= k < |tail| ==> r[|before| + 4 + k] == tail[k];
    assert forall k :: 0 <= k < 5 ==> tail[|inside| + k] == ("</em>" + after)[k] == "</em>"[k];
  }

  lemma CutAt(text: string, i: nat, s: string)
    requires OccursAt(text, i, s)
    ensures text == text[..i] + (s + text[i + |s|..])
  {
    assert text[i..i + |s|] == s;
  }

  lemma OccursInRest(text: string, cut: nat, j: nat, s: string)
    requires cut <= j && OccursAt(text, j, s)
    ensures OccursAt(text[cut..], j - cut, s)
  {
    forall k | 0 <= k < |s|
      ensures text[cut..][j - cut + k] == s[k]
    {
      assert text[j + k] == s[k];
    }
  }

  lemma ThreeParts(before: string, inside: string, after: string)
    ensures var text, i, j := before + (inside + after), |before|, |before| + |inside|;
            text[..i] == before && text[i..j] == inside && text[j..] == after
  {
  }

  lemma RenderedPair(before: string, inside: string, after: string)
    ensures Rendered(before + (inside + after), [Span(|before|, |before| + |inside|)])
         == before + ("<em>" + (inside + ("</em>" + after)))
  {
    var text, i, j := before + (inside + after), |before|, |before| + |inside|;
    ThreeParts(before, inside, after);
    SliceWithin(text, i, j);
    SliceWithin(text, 0, i);
    PlainTail(text, j);
    RenderSingle(text, Span(i, j));
  }

  lemma RenderSingle(text: string, s: Span)
    ensures Rendered(text, [s])
         == Slice(text, 0, s.start) + ("<em>" + (Slice(text, s.start, s.end) + ("</em>" + Render(Marked(text, [], s.end)))))
  {
    RenderFirstSpan(text, [s], 0);
    assert [s][1..] == [];
  }

  lemma CutTwice(text: string, i: nat, j: nat, open: string, close: string)
    requires OccursAt(text, i, open) && i + |open| <= j && OccursAt(text, j, close)
    ensures text == text[..i] + (open + (text[i + |open|..j] + (close + text[j + |close|..])))
  {
    CutAt(text, i, open);
    var rest, k := text[i + |open|..], j - i - |open|;
    OccursInRest(text, i + |open|, j, close);
    CutAt(rest, k, close);
    assert rest[..k] == text[i + |open|..j] && rest[k + |close|..] == text[j + |close|..];
  }

  lemma PairParts(text: string, i: nat, j: nat) returns (before: string, inside: string, after: string)
    requires PairAt(text, i, j)
    ensures text == before + ("<em>" + (inside + ("</em>" + after))) && inside != ""
  {
    CutTwice(text, i, j, "<em>", "</em>");
    before, inside, after := text[..i], text[i + 4..j], text[j + 5..];
  }

  /** A text that spells a pair is what another text is sent as, in which the pair stands for a
      highlight. */
  lemma PairIsHighlight(text: string, i: nat, j: nat) returns (other: string, span: Span)
    requires PairAt(text, i, j)
    ensures Placed(other, [span], 0) && Rendered(other, [span]) == text
  {
    var before, inside, after := PairParts(text, i, j);
    RenderedPair(before, inside, after);
    other, span := before + (inside + after), Span(|before|, |before| + |inside|);
  }

  lemma PlainTail(text: string, cursor: nat)
    requires cursor <= |text|
    ensures Render(Marked(text, [], cursor)) == text[cursor..]
  {
    assert Slice(text, cursor, |text|) == text[cursor..];
    RenderChars(text[cursor..]);
  }

  /** The string determines the text and the spans exactly when nothing is highlighted and the
      text spells no pair of markers itself. */
  lemma OnlyReadingIff(text: string, spans: seq<Span>)
    requires Placed(text, spans, 0)
    ensures OnlyReading(text, spans) <==> spans == [] && !SpellsPair(text)
  {
    var r := Rendered(text, spans);
    PlainIsText(r);
    PlainIsText(text);
    assert Placed(r, [], 0);
    if spans == [] && SpellsPair(text) {
      var i: nat, j: nat :| PairAt(text, i, j);
      var other, span := PairIsHighlight(text, i, j);
      assert Placed(other, [span], 0) && Rendered(other, [span]) == r;
    } else if spans == [] {
      forall other, others | Placed(other, others, 0) && Rendered(other, others) == r
        ensures other == text && others == spans
      {
        if others != [] {
          HighlightSpellsPair(other, others);
        } else {
          PlainIsText(other);
        }
      }
    }
  }

  /** What the service sends for the tokens of a query. */
  function Sent(lower: char -> char, text: string, tokens: seq<string>): string {
    Render(Marked(text, Sort(NotAfter, Highlights(lower, text, tokens)), 0))
  }

  lemma HighlightsArePlaced(lower: char -> char, text: string, tokens: seq<string>)
    requires "" !in tokens
    ensures Placed(text, Highlights(lower, text, tokens), 0)
    ensures Sent(lower, text, tokens) == Rendered(text, Highlights(lower, text, tokens))
  {
    HighlightsCoverOccurrences(lower, text, tokens, 0);
    HighlightsInText(lower, text, tokens);
    SortOfCanonical(Highlights(lower, text, tokens));
  }

  /** Of texts that contain neither marker, what is sent tells which text it was and what was
      highlighted, whatever the queries were. */
  lemma SentTellsMarkerFree(lower: char -> char, a: string, tokensA: seq<string>, b: string, tokensB: seq<string>)
    requires "" !in tokensA && "" !in tokensB && MarkerFree(a) && MarkerFree(b)
    requires Sent(lower, a, tokensA) == Sent(lower, b, tokensB)
    ensures a == b && Highlights(lower, a, tokensA) == Highlights(lower, b, tokensB)
  {
    HighlightsArePlaced(lower, a, tokensA);
    HighlightsArePlaced(lower, b, tokensB);
    MarkerFreeIsUnambiguous(a, Highlights(lower, a, tokensA), b, Highlights(lower, b, tokensB));
  }

  /** Whenever a query highlights anything, the same string is sent for another text, the string
      itself, under a query without tokens. */
  lemma HighlightIsAmbiguous(lower: char -> char, text: string, tokens: seq<string>)
    requires "" !in tokens && Highlights(lower, text, tokens) != []
    ensures var other := Sent(lower, text, tokens);
            && Sent(lower, other, []) == Sent(lower, text, tokens)
            && Highlights(lower, other, []) == []
            && other != text
  {
    var spans := Highlights(lower, text, tokens);
    var other := Sent(lower, text, tokens);
    HighlightsArePlaced(lower, text, tokens);
    assert Highlights(lower, other, []) == [];
    PlainIsText(other);
    SentIsLonger(text, spans);
  }

  lemma {:induction false} RenderedLength(text: string, spans: seq<Span>, cursor: nat)
    requires Placed(text, spans, cursor)
    ensures |Render(Marked(text, spans, cursor))| >= |text| - cursor + |spans|
    decreases |spans|
  {
    if spans == [] {
      PlainTail(text, cursor);
    } else {
      RenderFirstSpan(text, spans, cursor);
      SliceLength(text, cursor, spans[0].start);
      SliceLength(text, spans[0].start, spans[0].end);
      RenderedLength(text, spans[1..], spans[0].end);
    }
  }

  lemma SentIsLonger(text: string, spans: seq<Span>)
    requires Placed(text, spans, 0) && spans != []
    ensures |Rendered(text, spans)| > |text|
  {
    RenderedLength(text, spans, 0);
  }
}
