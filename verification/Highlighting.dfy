/** Highlighting query tokens in a text: occurrence search, merging and marker insertion. */
module Highlighting {
  import opened Text
  import opened Sorting

  datatype Span = Span(start: nat, end: nat)

  /** Lower-casing that keeps lengths, character by character. */
  function Lower(lower: char -> char, s: string): string {
    seq(|s|, i requires 0 <= i < |s| => lower(s[i]))
  }

  /** The occurrences of tok in text from start on, overlapping ones included. */
  function Occurrences(text: string, tok: string, start: nat): seq<Span>
    decreases if start <= |text| then |text| - start + 1 else 0
  {
    var pos := FindFrom(text, tok, start);
    if pos == -1 then [] else [Span(pos, pos + |tok|)] + Occurrences(text, tok, pos + 1)
  }

  function AllOccurrences(lower: char -> char, text: string, tokens: seq<string>): seq<Span> {
    if tokens == [] then []
    else Occurrences(Lower(lower, text), Lower(lower, tokens[0]), 0) + AllOccurrences(lower, text, tokens[1..])
  }

  /** The order of (start, end) pairs. */
  predicate NotAfter(a: Span, b: Span) {
    a.start < b.start || (a.start == b.start && a.end <= b.end)
  }

  /** Merging the remaining spans into those merged so far. */
  function MergeInto(merged: seq<Span>, spans: seq<Span>): seq<Span>
    decreases |spans|
  {
    if spans == [] then merged else MergeInto(MergeOne(merged, spans[0]), spans[1..])
  }

  function MergeOne(merged: seq<Span>, s: Span): seq<Span> {
    if merged == [] then [s]
    else
      var last := merged[|merged| - 1];
      if s.start <= last.end then merged[|merged| - 1 := Span(last.start, if last.end > s.end then last.end else s.end)]
      else merged + [s]
  }

  function Highlights(lower: char -> char, text: string, tokens: seq<string>): seq<Span> {
    MergeInto([], Sort(NotAfter, AllOccurrences(lower, text, tokens)))
  }

  method FindHighlightSpans(text: string, query: string, tokenize: string -> seq<string>, lower: char -> char) returns (merged: seq<Span>)
    requires forall q, i :: 0 <= i < |tokenize(q)| ==> tokenize(q)[i] != ""
    ensures merged == if text == "" || query == "" then [] else Highlights(lower, text, tokenize(query))
  {
    if text == "" || query == "" {
      return [];
    }
    var tokens := tokenize(query);
    if tokens == [] {
      assert Sort(NotAfter, AllOccurrences(lower, text, tokens)) == [];
      return [];
    }
    var textLower := Lower(lower, text);
    var spans: seq<Span> := [];
    for i := 0 to |tokens|
      invariant Remains(AllOccurrences(lower, text, tokens), spans, AllOccurrences(lower, text, tokens[i..]))
    {
      assert tokens[i..][1..] == tokens[i + 1..];
      var found := FindAll(textLower, Lower(lower, tokens[i]));
      Advance(AllOccurrences(lower, text, tokens), spans, found, AllOccurrences(lower, text, tokens[i + 1..]));
      spans := spans + found;
    }
    NothingRemains(AllOccurrences(lower, text, tokens), spans);
    merged := Merge(Sort(NotAfter, spans));
  }

  method Merge(spans: seq<Span>) returns (merged: seq<Span>)
    ensures merged == MergeInto([], spans)
  {
    merged := [];
    for i := 0 to |spans|
      invariant MergeInto(merged, spans[i..]) == MergeInto([], spans)
    {
      var s := spans[i];
      assert spans[i..][1..] == spans[i + 1..];
      assert MergeInto(merged, spans[i..]) == MergeInto(MergeOne(merged, s), spans[i + 1..]);
      if merged == [] {
        merged := [s];
        continue;
      }
      var last := merged[|merged| - 1];
      if s.start <= last.end {
        merged := merged[|merged| - 1 := Span(last.start, if last.end > s.end then last.end else s.end)];
      } else {
        merged := merged + [s];
      }
    }
  }

  /** The scan for one token. */
  method FindAll(text: string, tok: string) returns (spans: seq<Span>)
    ensures spans == Occurrences(text, tok, 0)
  {
    spans := [];
    var start := 0;
    while true
      invariant start <= |text| + 1
      invariant Remains(Occurrences(text, tok, 0), spans, Occurrences(text, tok, start))
      decreases |text| + 1 - start
    {
      var pos := FindFrom(text, tok, start);
      if pos == -1 {
        break;
      }
      Advance(Occurrences(text, tok, 0), spans, [Span(pos, pos + |tok|)], Occurrences(text, tok, pos + 1));
      spans := spans + [Span(pos, pos + |tok|)];
      start := pos + 1;
    }
  }

  // ----- Coverage -----

  predicate In(s: Span, i: int) {
    s.start <= i < s.end
  }

  ghost predicate Covered(spans: seq<Span>, i: int) {
    exists k :: 0 <= k < |spans| && In(spans[k], i)
  }

  lemma CoveredConcat(a: seq<Span>, b: seq<Span>, i: int)
    ensures Covered(a + b, i) <==> Covered(a, i) || Covered(b, i)
  {
    if Covered(a, i) {
      var k :| 0 <= k < |a| && In(a[k], i);
      assert In((a + b)[k], i);
    }
    if Covered(b, i) {
      var k :| 0 <= k < |b| && In(b[k], i);
      assert In((a + b)[|a| + k], i);
    }
  }

  /** Token tok occurs at pos, ignoring case, and its occurrence covers index i. */
  ghost predicate OccursOver(lower: char -> char, text: string, tok: string, pos: nat, i: int) {
    OccursAt(Lower(lower, text), pos, Lower(lower, tok)) && pos <= i < pos + |tok|
  }

  lemma {:induction false} OccurrencesAreAll(text: string, tok: string, start: nat, i: int)
    ensures Covered(Occurrences(text, tok, start), i) <==>
            exists pos :: start <= pos && OccursAt(text, pos, tok) && pos <= i < pos + |tok|
    decreases if start <= |text| then |text| - start + 1 else 0
  {
    var p := FindFrom(text, tok, start);
    FindIsFirst(text, tok, start);
    if p != -1 {
      var later := Occurrences(text, tok, p + 1);
      OccurrencesAreAll(text, tok, p + 1, i);
      CoveredConcat([Span(p, p + |tok|)], later, i);
      CoveredSingle(Span(p, p + |tok|), i);
    }
  }

  lemma CoveredSingle(s: Span, i: int)
    ensures Covered([s], i) <==> In(s, i)
  {
    if In(s, i) {
      assert In([s][0], i);
    }
  }

  lemma {:induction false} AllOccurrencesAreAll(lower: char -> char, text: string, tokens: seq<string>, i: int)
    ensures Covered(AllOccurrences(lower, text, tokens), i) <==>
            exists t, pos :: t in tokens && OccursOver(lower, text, t, pos, i)
  {
    if tokens != [] {
      var tok, low := tokens[0], Lower(lower, text);
      AllOccurrencesAreAll(lower, text, tokens[1..], i);
      OccurrencesAreAll(low, Lower(lower, tok), 0, i);
      CoveredConcat(Occurrences(low, Lower(lower, tok), 0), AllOccurrences(lower, text, tokens[1..]), i);
      if Covered(Occurrences(low, Lower(lower, tok), 0), i) {
        var pos: nat :| OccursAt(low, pos, Lower(lower, tok)) && pos <= i < pos + |Lower(lower, tok)|;
        assert OccursOver(lower, text, tok, pos, i);
      }
      forall t, pos | t in tokens && OccursOver(lower, text, t, pos, i)
        ensures Covered(AllOccurrences(lower, text, tokens), i)
      {
        if t !in tokens[1..] {
          assert t == tok;
        }
      }
    }
  }

  // ----- Canonical form -----

  /** No span is empty, and successive spans are in order with a gap between them. */
  ghost predicate Canonical(spans: seq<Span>) {
    && (forall k :: 0 <= k < |spans| ==> spans[k].start < spans[k].end)
    && (forall j, k :: 0 <= j < k < |spans| ==> spans[j].end < spans[k].start)
  }

  /** The spans are not empty and sorted by start, none starting before from. */
  ghost predicate Mergeable(spans: seq<Span>, from: nat) {
    && (forall k :: 0 <= k < |spans| ==> from <= spans[k].start < spans[k].end)
    && (forall j, k :: 0 <= j < k < |spans| ==> spans[j].start <= spans[k].start)
  }

  lemma MergeOneIsCanonical(merged: seq<Span>, s: Span)
    requires Canonical(merged) && s.start < s.end
    requires merged != [] ==> merged[|merged| - 1].start <= s.start
    ensures var r := MergeOne(merged, s); Canonical(r) && r != [] && r[|r| - 1].start <= s.start
  {
  }

  lemma MergeOneCovers(merged: seq<Span>, s: Span, i: int)
    requires merged != [] ==> merged[|merged| - 1].start <= s.start
    ensures Covered(MergeOne(merged, s), i) <==> Covered(merged, i) || In(s, i)
  {
    CoveredSingle(s, i);
    if merged != [] {
      var front, last := merged[..|merged| - 1], merged[|merged| - 1];
      assert merged == front + [last];
      CoveredConcat(front, [last], i);
      CoveredSingle(last, i);
      if s.start <= last.end {
        var m := Span(last.start, if last.end > s.end then last.end else s.end);
        assert MergeOne(merged, s) == front + [m];
        CoveredConcat(front, [m], i);
        CoveredSingle(m, i);
      } else {
        CoveredConcat(merged, [s], i);
      }
    }
  }

  lemma MergeableRest(spans: seq<Span>, from: nat)
    requires spans != [] && Mergeable(spans, from)
    ensures from <= spans[0].start < spans[0].end && Mergeable(spans[1..], spans[0].start)
  {
    forall k | 0 <= k < |spans| - 1
      ensures spans[0].start <= spans[1..][k].start < spans[1..][k].end
    {
      assert spans[1..][k] == spans[k + 1];
    }
  }

  lemma MergeableSooner(spans: seq<Span>, from: nat, sooner: nat)
    requires Mergeable(spans, from) && sooner <= from
    ensures Mergeable(spans, sooner)
  {
  }

  lemma {:induction false} MergeIsCanonical(merged: seq<Span>, spans: seq<Span>, i: int)
    requires Canonical(merged) && Mergeable(spans, if merged == [] then 0 else merged[|merged| - 1].start)
    ensures Canonical(MergeInto(merged, spans))
    ensures Covered(MergeInto(merged, spans), i) <==> Covered(merged, i) || Covered(spans, i)
    decreases |spans|
  {
    if spans != [] {
      MergeableRest(spans, if merged == [] then 0 else merged[|merged| - 1].start);
      MergeOneIsCanonical(merged, spans[0]);
      MergeOneCovers(merged, spans[0], i);
      var next := MergeOne(merged, spans[0]);
      MergeableSooner(spans[1..], spans[0].start, next[|next| - 1].start);
      MergeIsCanonical(next, spans[1..], i);
      assert [spans[0]] + spans[1..] == spans;
      CoveredConcat([spans[0]], spans[1..], i);
      CoveredSingle(spans[0], i);
    }
  }

  ghost predicate NoneEmpty(spans: seq<Span>) {
    forall k :: 0 <= k < |spans| ==> spans[k].start < spans[k].end
  }

  lemma {:induction false} OccurrencesNotEmpty(text: string, tok: string, start: nat)
    requires tok != ""
    ensures NoneEmpty(Occurrences(text, tok, start))
    decreases if start <= |text| then |text| - start + 1 else 0
  {
    var p := FindFrom(text, tok, start);
    if p != -1 {
      OccurrencesNotEmpty(text, tok, p + 1);
    }
  }

  lemma {:induction false} AllOccurrencesNotEmpty(lower: char -> char, text: string, tokens: seq<string>)
    requires "" !in tokens
    ensures NoneEmpty(AllOccurrences(lower, text, tokens))
  {
    if tokens != [] {
      OccurrencesNotEmpty(Lower(lower, text), Lower(lower, tokens[0]), 0);
      AllOccurrencesNotEmpty(lower, text, tokens[1..]);
    }
  }

  lemma SortedIsMergeable(spans: seq<Span>, i: int)
    requires NoneEmpty(spans)
    ensures Mergeable(Sort(NotAfter, spans), 0)
    ensures Covered(Sort(NotAfter, spans), i) <==> Covered(spans, i)
  {
    var sorted := Sort(NotAfter, spans);
    assert TotalPreorder(NotAfter);
    SortSorts(NotAfter, spans);
    SortKeeps(NotAfter, spans);
    forall k | 0 <= k < |sorted|
      ensures sorted[k].start < sorted[k].end
    {
      assert sorted[k] in multiset(sorted);
      assert sorted[k] in spans;
    }
    forall j, k | 0 <= j < k < |sorted|
      ensures sorted[j].start <= sorted[k].start
    {
      assert NotAfter(sorted[j], sorted[k]);
    }
    if Covered(spans, i) {
      SameElementsCover(spans, sorted, i);
    }
    if Covered(sorted, i) {
      SameElementsCover(sorted, spans, i);
    }
  }

  lemma SameElementsCover(a: seq<Span>, b: seq<Span>, i: int)
    requires multiset(a) == multiset(b) && Covered(a, i)
    ensures Covered(b, i)
  {
    var k :| 0 <= k < |a| && In(a[k], i);
    assert a[k] in multiset(b);
    assert a[k] in b;
  }

  /** The highlighted spans are in canonical form and cover an index exactly when some
      occurrence of some token does. */
  lemma HighlightsCoverOccurrences(lower: char -> char, text: string, tokens: seq<string>, i: int)
    requires "" !in tokens
    ensures Canonical(Highlights(lower, text, tokens))
    ensures Covered(Highlights(lower, text, tokens), i) <==> exists t, pos :: t in tokens && OccursOver(lower, text, t, pos, i)
  {
    var spans := AllOccurrences(lower, text, tokens);
    AllOccurrencesNotEmpty(lower, text, tokens);
    AllOccurrencesAreAll(lower, text, tokens, i);
    SortedIsMergeable(spans, i);
    MergeIsCanonical([], Sort(NotAfter, spans), i);
  }

  ghost predicate SameCover(a: seq<Span>, b: seq<Span>) {
    forall i :: Covered(a, i) <==> Covered(b, i)
  }

  /** Two canonical lists that cover the same indices are the same list. */
  lemma {:induction false} CanonicalIsUnique(a: seq<Span>, b: seq<Span>)
    requires Canonical(a) && Canonical(b)
    requires SameCover(a, b)
    ensures a == b
  {
    if a != [] {
      FirstSpanIsCovered(a);
      assert Covered(b, a[0].start);
    }
    if b != [] {
      FirstSpanIsCovered(b);
      assert Covered(a, b[0].start);
      SameFirst(a, b);
      SameFirst(b, a);
      SameRest(a, b);
      CanonicalIsUnique(a[1..], b[1..]);
      assert a == [a[0]] + a[1..] && b == [b[0]] + b[1..];
    }
  }

  lemma SameRest(a: seq<Span>, b: seq<Span>)
    requires Canonical(a) && Canonical(b) && a != [] && b != [] && a[0] == b[0] && SameCover(a, b)
    ensures SameCover(a[1..], b[1..])
  {
    forall i
      ensures Covered(a[1..], i) <==> Covered(b[1..], i)
    {
      CoveredByRest(a, i);
      CoveredByRest(b, i);
    }
  }

  lemma FirstSpanIsCovered(a: seq<Span>)
    requires Canonical(a) && a != []
    ensures Covered(a, a[0].start) && Covered(a, a[0].end - 1) && !Covered(a, a[0].end)
    ensures forall i :: Covered(a, i) ==> a[0].start <= i
    ensures forall i :: a[0].start <= i < a[0].end ==> Covered(a, i)
  {
    assert In(a[0], a[0].start) && In(a[0], a[0].end - 1);
    assert forall k :: 0 < k < |a| ==> a[0].end < a[k].start;
    forall i | a[0].start <= i < a[0].end
      ensures Covered(a, i)
    {
      assert In(a[0], i);
    }
  }

  lemma SameFirst(a: seq<Span>, b: seq<Span>)
    requires a != [] && b != [] && Canonical(a) && Canonical(b)
    requires SameCover(a, b)
    ensures a[0].start >= b[0].start && a[0].end >= b[0].end
  {
    FirstSpanIsCovered(a);
    FirstSpanIsCovered(b);
    assert Covered(b, a[0].start);
    assert Covered(a, b[0].start);
    var e := a[0].end;
    assert Covered(a, e) <==> Covered(b, e);
  }

  lemma CoveredByRest(a: seq<Span>, i: int)
    requires Canonical(a) && a != []
    ensures Covered(a[1..], i) <==> Covered(a, i) && i >= a[0].end
  {
    assert a == [a[0]] + a[1..];
    CoveredConcat([a[0]], a[1..], i);
    CoveredSingle(a[0], i);
    if Covered(a[1..], i) {
      var k :| 0 <= k < |a[1..]| && In(a[1..][k], i);
      assert a[0].end < a[k + 1].start;
    }
  }

  /** Every token of tokens is, ignoring case, one of tokens'. */
  ghost predicate AmongTokens(lower: char -> char, tokens: seq<string>, tokens': seq<string>) {
    forall t :: t in tokens ==> exists t' :: t' in tokens' && Lower(lower, t') == Lower(lower, t)
  }

  lemma MoreTokensCoverMore(lower: char -> char, text: string, tokens: seq<string>, tokens': seq<string>, i: int)
    requires "" !in tokens && "" !in tokens' && AmongTokens(lower, tokens, tokens')
    requires Covered(Highlights(lower, text, tokens), i)
    ensures Covered(Highlights(lower, text, tokens'), i)
  {
    HighlightsCoverOccurrences(lower, text, tokens, i);
    HighlightsCoverOccurrences(lower, text, tokens', i);
    var t, pos :| t in tokens && OccursOver(lower, text, t, pos, i);
    var t' :| t' in tokens' && Lower(lower, t') == Lower(lower, t);
    assert |t'| == |Lower(lower, t')| == |Lower(lower, t)| == |t|;
    assert OccursOver(lower, text, t', pos, i);
  }

  /** The highlighting depends only on which tokens there are, ignoring case: not on their
      order, and not on repeats. */
  lemma HighlightsIgnoreTokenOrder(lower: char -> char, text: string, tokens: seq<string>, tokens': seq<string>)
    requires "" !in tokens && "" !in tokens'
    requires AmongTokens(lower, tokens, tokens') && AmongTokens(lower, tokens', tokens)
    ensures Highlights(lower, text, tokens) == Highlights(lower, text, tokens')
  {
    SameTokensCoverSame(lower, text, tokens, tokens');
    HighlightsCoverOccurrences(lower, text, tokens, 0);
    HighlightsCoverOccurrences(lower, text, tokens', 0);
    CanonicalIsUnique(Highlights(lower, text, tokens), Highlights(lower, text, tokens'));
  }

  lemma SameTokensCoverSame(lower: char -> char, text: string, tokens: seq<string>, tokens': seq<string>)
    requires "" !in tokens && "" !in tokens'
    requires AmongTokens(lower, tokens, tokens') && AmongTokens(lower, tokens', tokens)
    ensures SameCover(Highlights(lower, text, tokens), Highlights(lower, text, tokens'))
  {
    var a, b := Highlights(lower, text, tokens), Highlights(lower, text, tokens');
    forall i
      ensures Covered(a, i) <==> Covered(b, i)
    {
      if Covered(a, i) {
        MoreTokensCoverMore(lower, text, tokens, tokens', i);
      }
      if Covered(b, i) {
        MoreTokensCoverMore(lower, text, tokens', tokens, i);
      }
    }
  }

  /** Spans stay inside the text. */
  lemma HighlightsInText(lower: char -> char, text: string, tokens: seq<string>)
    requires "" !in tokens
    ensures forall k :: 0 <= k < |Highlights(lower, text, tokens)| ==> Highlights(lower, text, tokens)[k].end <= |text|
  {
    var spans := Highlights(lower, text, tokens);
    forall k | 0 <= k < |spans|
      ensures spans[k].end <= |text|
    {
      var i := spans[k].end - 1;
      HighlightsCoverOccurrences(lower, text, tokens, i);
      assert In(spans[k], i);
      var t, pos :| t in tokens && OccursOver(lower, text, t, pos, i);
    }
  }

  // ----- Markers -----

  datatype Mark = Ch(c: char) | Open | Close

  function Chars(s: string): seq<Mark> {
    seq(|s|, i requires 0 <= i < |s| => Ch(s[i]))
  }

  /** The characters of s, then later marks. */
  function CharsThen(s: string, later: seq<Mark>): seq<Mark> {
    if s == "" then later else [Ch(s[0])] + CharsThen(s[1..], later)
  }

  lemma {:induction false} CharsThenIsConcat(s: string, later: seq<Mark>)
    ensures CharsThen(s, later) == Chars(s) + later
  {
    if s != "" {
      CharsThenIsConcat(s[1..], later);
      assert Chars(s) == [Ch(s[0])] + Chars(s[1..]);
    } else {
      assert Chars(s) + later == later;
    }
  }

  /** The marked text from position cursor on. */
  function Marked(text: string, spans: seq<Span>, cursor: nat): seq<Mark>
    decreases |spans|
  {
    if spans == [] then Chars(Slice(text, cursor, |text|))
    else
      CharsThen(Slice(text, cursor, spans[0].start),
        [Open] + CharsThen(Slice(text, spans[0].start, spans[0].end), [Close] + Marked(text, spans[1..], spans[0].end)))
  }

  lemma MarkedIsConcat(text: string, spans: seq<Span>, cursor: nat)
    requires spans != []
    ensures var s := spans[0];
            Marked(text, spans, cursor)
              == (Chars(Slice(text, cursor, s.start)) + [Open] + Chars(Slice(text, s.start, s.end)) + [Close]) + Marked(text, spans[1..], s.end)
  {
    var later := Marked(text, spans[1..], spans[0].end);
    var inside := Slice(text, spans[0].start, spans[0].end);
    CharsThenIsConcat(inside, [Close] + later);
    CharsThenIsConcat(Slice(text, cursor, spans[0].start), [Open] + CharsThen(inside, [Close] + later));
  }

  method ApplyHighlight(text: string, spans: seq<Span>) returns (result: seq<Mark>)
    ensures result == Marked(text, Sort(NotAfter, spans), 0)
  {
    var sorted := Sort(NotAfter, spans);
    if spans == [] {
      assert Slice(text, 0, |text|) == text;
      return Chars(text);
    }
    result := [];
    var cursor := 0;
    for i := 0 to |sorted|
      invariant Remains(Marked(text, sorted, 0), result, Marked(text, sorted[i..], cursor))
    {
      var s := sorted[i];
      assert sorted[i..][1..] == sorted[i + 1..];
      var piece := Chars(Slice(text, cursor, s.start)) + [Open] + Chars(Slice(text, s.start, s.end)) + [Close];
      MarkedIsConcat(text, sorted[i..], cursor);
      Advance(Marked(text, sorted, 0), result, piece, Marked(text, sorted[i + 1..], s.end));
      result := result + piece;
      cursor := s.end;
    }
    assert sorted[|sorted|..] == [];
    var tail := Chars(Slice(text, cursor, |text|));
    assert tail + [] == tail;
    Advance(Marked(text, sorted, 0), result, tail, []);
    result := result + tail;
    NothingRemains(Marked(text, sorted, 0), result);
  }

  /** Reading the marks back: the characters alone. */
  function TextOf(marks: seq<Mark>): string {
    if marks == [] then ""
    else if marks[0].Ch? then [marks[0].c] + TextOf(marks[1..])
    else TextOf(marks[1..])
  }

  /** Reading the marks back: where each marker pair stands, pos characters having been read
      and open being the position of the last opening marker. */
  function SpansOf(marks: seq<Mark>, pos: nat, open: nat): seq<Span> {
    if marks == [] then []
    else
      match marks[0]
      case Ch(_) => SpansOf(marks[1..], pos + 1, open)
      case Open => SpansOf(marks[1..], pos, pos)
      case Close => [Span(open, pos)] + SpansOf(marks[1..], pos, open)
  }

  /** Reading a stretch of a text in front of marks that read as the rest of it. */
  lemma {:induction false} ReadText(text: string, a: nat, b: nat, later: seq<Mark>)
    requires a <= b <= |text| && TextOf(later) == text[b..]
    ensures TextOf(CharsThen(text[a..b], later)) == text[a..]
    decreases b - a
  {
    if a < b {
      ReadText(text, a + 1, b, later);
      assert text[a..b][1..] == text[a + 1..b];
      assert CharsThen(text[a..b], later)[1..] == CharsThen(text[a + 1..b], later);
      assert [text[a]] + text[a + 1..] == text[a..];
    }
  }

  lemma {:induction false} ReadSpans(s: string, later: seq<Mark>, pos: nat, open: nat)
    ensures SpansOf(CharsThen(s, later), pos, open) == SpansOf(later, pos + |s|, open)
  {
    if s != "" {
      ReadSpans(s[1..], later, pos + 1, open);
      assert CharsThen(s, later)[1..] == CharsThen(s[1..], later);
    }
  }

  lemma {:induction false} ReadStretch(a: string, b: string, later: seq<Mark>, pos: nat, open: nat)
    ensures SpansOf(CharsThen(a, [Open] + CharsThen(b, [Close] + later)), pos, open)
         == [Span(pos + |a|, pos + |a| + |b|)] + SpansOf(later, pos + |a| + |b|, pos + |a|)
  {
    var inside := CharsThen(b, [Close] + later);
    ReadSpans(a, [Open] + inside, pos, open);
    assert ([Open] + inside)[1..] == inside;
    ReadSpans(b, [Close] + later, pos + |a|, pos + |a|);
    assert ([Close] + later)[1..] == later;
  }

  /** The spans are sorted and disjoint, start at from or later and stay inside the text. */
  ghost predicate Placed(text: string, spans: seq<Span>, from: nat) {
    && Canonical(spans) && from <= |text|
    && forall k :: 0 <= k < |spans| ==> from <= spans[k].start && spans[k].end <= |text|
  }

  lemma ReadEnd(text: string, cursor: nat, open: nat)
    requires cursor <= |text|
    ensures TextOf(Marked(text, [], cursor)) == text[cursor..]
    ensures SpansOf(Marked(text, [], cursor), cursor, open) == []
  {
    var rest := text[cursor..];
    assert Slice(text, cursor, |text|) == rest;
    CharsThenIsConcat(rest, []);
    assert Chars(rest) + [] == Chars(rest);
    ReadText(text, cursor, |text|, []);
    ReadSpans(rest, [], cursor, open);
  }

  /** The text is read back from the marks of sorted, disjoint spans. */
  lemma {:induction false} TextReadBack(text: string, spans: seq<Span>, cursor: nat)
    requires Placed(text, spans, cursor)
    ensures TextOf(Marked(text, spans, cursor)) == text[cursor..]
    decreases |spans|
  {
    if spans == [] {
      ReadEnd(text, cursor, 0);
    } else {
      var s, later := spans[0], Marked(text, spans[1..], spans[0].end);
      TextReadBack(text, spans[1..], s.end);
      SliceWithin(text, cursor, s.start);
      SliceWithin(text, s.start, s.end);
      ReadText(text, s.start, s.end, [Close] + later);
      ReadText(text, cursor, s.start, [Open] + CharsThen(text[s.start..s.end], [Close] + later));
    }
  }

  lemma SliceLength(text: string, a: nat, b: nat)
    requires a <= b <= |text|
    ensures |Slice(text, a, b)| == b - a
  {
  }

  /** The spans read from marks that begin with a marked stretch. */
  lemma {:induction false} ReadMarked(marks: seq<Mark>, a: string, b: string, later: seq<Mark>, pos: nat, open: nat, s: Span)
    requires marks == CharsThen(a, [Open] + CharsThen(b, [Close] + later))
    requires pos + |a| == s.start && s.start + |b| == s.end
    ensures SpansOf(marks, pos, open) == [s] + SpansOf(later, s.end, s.start)
  {
    ReadStretch(a, b, later, pos, open);
  }

  lemma FirstSpanReadBack(text: string, spans: seq<Span>, cursor: nat, open: nat)
    requires Placed(text, spans, cursor) && spans != []
    ensures var s := spans[0];
            SpansOf(Marked(text, spans, cursor), cursor, open) == [s] + SpansOf(Marked(text, spans[1..], s.end), s.end, s.start)
  {
    var s := spans[0];
    SliceLength(text, cursor, s.start);
    SliceLength(text, s.start, s.end);
    ReadMarked(Marked(text, spans, cursor), Slice(text, cursor, s.start), Slice(text, s.start, s.end),
               Marked(text, spans[1..], s.end), cursor, open, s);
  }

  /** The spans are read back from the marks of sorted, disjoint spans. */
  lemma {:induction false} SpansReadBack(text: string, spans: seq<Span>, cursor: nat, open: nat)
    requires Placed(text, spans, cursor)
    ensures SpansOf(Marked(text, spans, cursor), cursor, open) == spans
    decreases |spans|
  {
    if spans == [] {
      ReadEnd(text, cursor, open);
    } else {
      FirstSpanReadBack(text, spans, cursor, open);
      SpansReadBack(text, spans[1..], spans[0].end, spans[0].start);
      assert [spans[0]] + spans[1..] == spans;
    }
  }

  lemma SliceWithin(text: string, a: nat, b: nat)
    requires a <= b <= |text|
    ensures Slice(text, a, b) == text[a..b]
  {
  }

  /** From what applying the found highlights builds, the text and the spans are recovered. */
  lemma HighlightingIsReversible(lower: char -> char, text: string, tokens: seq<string>)
    requires "" !in tokens
    ensures var spans := Highlights(lower, text, tokens);
            var marks := Marked(text, Sort(NotAfter, spans), 0);
            TextOf(marks) == text && SpansOf(marks, 0, 0) == spans
  {
    var spans := Highlights(lower, text, tokens);
    HighlightsCoverOccurrences(lower, text, tokens, 0);
    HighlightsInText(lower, text, tokens);
    SortOfCanonical(spans);
    TextReadBack(text, spans, 0);
    SpansReadBack(text, spans, 0, 0);
  }

  lemma SortOfCanonical(spans: seq<Span>)
    requires Canonical(spans)
    ensures Sort(NotAfter, spans) == spans
  {
    forall i, j | 0 <= i < j < |spans|
      ensures NotAfter(spans[i], spans[j])
    {
      assert spans[i].end < spans[j].start && spans[i].start < spans[i].end;
    }
    SortOfSorted(NotAfter, spans);
  }
}
