/** The citation parser: an answer is cut into sentences and each sentence's marks are parsed. */
module CitationParser {
  import opened Options
  import opened Sorting
  import opened Text
  import opened CitationMarks

  // ----- Sentences -----

  predicate IsEnder(c: char) {
    c == '\U{3002}' || c == '\U{ff01}' || c == '\U{ff1f}' || c == '!' || c == '?'
  }

  /** A sentence ends after s[j]: at an ender, or at a full stop that follows no digit and
      precedes white space or the end. Before s stands a digit or not. */
  predicate EndsAt(s: string, afterDigit: bool, isDigit: char -> bool, j: nat)
    requires j < |s|
  {
    || IsEnder(s[j])
    || (&& s[j] == '.'
        && !(if j == 0 then afterDigit else isDigit(s[j - 1]))
        && (j + 1 == |s| || IsSpace(s[j + 1])))
  }

  /** The text cut after every sentence end. The pattern also swallows the white space after
      each end; here it stays and the strip that follows removes it. */
  function Pieces(s: string, afterDigit: bool, isDigit: char -> bool): (pieces: seq<string>)
    ensures pieces != []
    decreases |s|
  {
    if s == "" then [""]
    else
      var rest := Pieces(s[1..], isDigit(s[0]), isDigit);
      if EndsAt(s, afterDigit, isDigit, 0) then [[s[0]]] + rest else PutFirst(s[0], rest)
  }

  /** The text is cut after each sentence end and nowhere else. */
  lemma {:induction false} CutAtEndsIff(s: string, afterDigit: bool, isDigit: char -> bool, j: nat)
    requires j < |s|
    ensures CutAt(Pieces(s, afterDigit, isDigit), j + 1) <==> EndsAt(s, afterDigit, isDigit, j)
    decreases |s|
  {
    var rest := Pieces(s[1..], isDigit(s[0]), isDigit);
    FirstPieceNotEmpty(s[1..], isDigit(s[0]), isDigit);
    CutAfterFirst(s[0], rest, j + 1);
    CutWithFirst(s[0], rest, j + 1);
    if j > 0 {
      CutAtEndsIff(s[1..], isDigit(s[0]), isDigit, j - 1);
    }
  }

  lemma {:induction false} FirstPieceNotEmpty(s: string, afterDigit: bool, isDigit: char -> bool)
    ensures var pieces := Pieces(s, afterDigit, isDigit); pieces[0] != "" || |pieces| == 1
  {
  }

  function Trimmed(pieces: seq<string>): seq<string> {
    if pieces == [] then []
    else if Strip(pieces[0]) == "" then Trimmed(pieces[1..])
    else [Strip(pieces[0])] + Trimmed(pieces[1..])
  }

  function Sentences(text: string, isDigit: char -> bool): seq<string> {
    Trimmed(Pieces(text, false, isDigit))
  }

  method SplitSentences(text: string, isDigit: char -> bool) returns (sentences: seq<string>)
    ensures sentences == Sentences(text, isDigit)
  {
    var pieces := Pieces(text, false, isDigit);
    sentences := [];
    for i := 0 to |pieces|
      invariant Remains(Trimmed(pieces), sentences, Trimmed(pieces[i..]))
    {
      assert pieces[i..][1..] == pieces[i + 1..];
      var stripped := Strip(pieces[i]);
      if stripped != "" {
        Advance(Trimmed(pieces), sentences, [stripped], Trimmed(pieces[i + 1..]));
        sentences := sentences + [stripped];
      }
    }
    NothingRemains(Trimmed(pieces), sentences);
  }

  lemma {:induction false} PiecesKeepText(s: string, afterDigit: bool, isDigit: char -> bool)
    ensures Flatten(Pieces(s, afterDigit, isDigit)) == s
    decreases |s|
  {
    if s == "" {
      FlattenSingle("");
    } else {
      var rest := Pieces(s[1..], isDigit(s[0]), isDigit);
      PiecesKeepText(s[1..], isDigit(s[0]), isDigit);
      FlattenPutFirst(s[0], rest);
      assert ([[s[0]]] + rest)[1..] == rest;
      assert [s[0]] + s[1..] == s;
    }
  }

  lemma {:induction false} VisibleTrimmed(pieces: seq<string>)
    ensures Visible(Flatten(Trimmed(pieces))) == Visible(Flatten(pieces))
    ensures forall p :: p in Trimmed(pieces) ==> p != "" && Stripped(p)
  {
    if pieces != [] {
      VisibleTrimmed(pieces[1..]);
      VisibleStrip(pieces[0]);
      var a, b := StripParts(pieces[0]);
      VisibleOfSpace(pieces[0]);
      VisibleConcat(pieces[0], Flatten(pieces[1..]));
      VisiblePrepend(Strip(pieces[0]), Trimmed(pieces[1..]));
    }
  }

  /** Sentences are not blank and keep all visible text in order. */
  lemma SentencesKeepText(text: string, isDigit: char -> bool)
    ensures Visible(Flatten(Sentences(text, isDigit))) == Visible(text)
    ensures forall p :: p in Sentences(text, isDigit) ==> p != "" && Stripped(p)
  {
    PiecesKeepText(text, false, isDigit);
    VisibleTrimmed(Pieces(text, false, isDigit));
  }

  // ----- Marks lost between sentences -----

  function MarksIn(sentences: seq<string>): seq<string> {
    if sentences == [] then [] else FindMarks(sentences[0]) + MarksIn(sentences[1..])
  }

  /** A sentence end inside the brackets of a mark. */
  ghost predicate IsCut(mark: string, isDigit: char -> bool) {
    exists j: nat :: j < |mark| && EndsInside(mark, isDigit, j)
  }

  predicate EndsInside(mark: string, isDigit: char -> bool, j: nat)
    requires j < |mark|
  {
    EndsAt(mark, false, isDigit, j) && (j + 1 < |mark| || IsEnder(mark[j]))
  }

  /** A mark that starts a text is found at the start of any longer text as well. */
  lemma MarkStays(p: string, s: string)
    requires p <= s && MarkAt(p).Some?
    ensures MarkAt(s) == MarkAt(p)
  {
    var mark := MarkAt(p).value;
    assert forall j :: 0 <= j < |p| ==> s[j] == p[j];
    assert Opens(s);
    var i, i' := Find(p[OPENING..], ']'), Find(s[OPENING..], ']');
    assert forall j :: 0 <= j < |p| - OPENING ==> s[OPENING..][j] == p[OPENING..][j];
    assert i == i';
    assert s[OPENING..][..i] == p[OPENING..][..i];
  }

  lemma {:induction false} FirstPieceIsPrefix(s: string, afterDigit: bool, isDigit: char -> bool)
    ensures Pieces(s, afterDigit, isDigit)[0] <= s
    decreases |s|
  {
    if s != "" {
      FirstPieceIsPrefix(s[1..], isDigit(s[0]), isDigit);
      assert [s[0]] + s[1..] == s;
    }
  }

  lemma EndsFromThere(s: string, afterDigit: bool, isDigit: char -> bool, j: nat)
    requires 1 <= j < |s|
    ensures EndsAt(s[j..], isDigit(s[j - 1]), isDigit, 0) <==> EndsAt(s, afterDigit, isDigit, j)
  {
  }

  lemma FirstStays(s: string, afterDigit: bool, isDigit: char -> bool)
    requires s != "" && !EndsAt(s, afterDigit, isDigit, 0)
    ensures var all, rest := Pieces(s, afterDigit, isDigit), Pieces(s[1..], isDigit(s[0]), isDigit);
            all[0] == [s[0]] + rest[0] && all[1..] == rest[1..]
  {
  }

  lemma PrefixGrows(s: string, n: nat, rest: string)
    requires 1 <= n <= |s|
    ensures s[..n - 1] + ([s[n - 1]] + rest) == s[..n] + rest
  {
    assert s[..n - 1] + [s[n - 1]] == s[..n];
    ConcatIsAssociative(s[..n - 1], [s[n - 1]], rest);
  }

  /** Text without a sentence end stays at the front of the first piece. */
  lemma {:induction false} FrontStays(s: string, afterDigit: bool, isDigit: char -> bool, n: nat)
    requires 1 <= n <= |s| && forall j: nat :: j < n ==> !EndsAt(s, afterDigit, isDigit, j)
    ensures var all, rest := Pieces(s, afterDigit, isDigit), Pieces(s[n..], isDigit(s[n - 1]), isDigit);
            all[0] == s[..n] + rest[0] && all[1..] == rest[1..]
    decreases n
  {
    if n == 1 {
      assert !EndsAt(s, afterDigit, isDigit, 0);
      FirstStays(s, afterDigit, isDigit);
      assert s[..1] == [s[0]];
    } else {
      FrontStays(s, afterDigit, isDigit, n - 1);
      EndsFromThere(s, afterDigit, isDigit, n - 1);
      var later := s[n - 1..];
      FirstStays(later, isDigit(s[n - 2]), isDigit);
      assert later[0] == s[n - 1] && later[1..] == s[n..];
      PrefixGrows(s, n, Pieces(s[n..], isDigit(s[n - 1]), isDigit)[0]);
    }
  }

  lemma MarkIsWhole(s: string, afterDigit: bool, isDigit: char -> bool)
    requires MarkAt(s).Some? && !IsCut(MarkAt(s).value, isDigit) && !isDigit(':')
    ensures forall j: nat :: j < OPENING + |MarkAt(s).value| + 1 ==> !EndsAt(s, afterDigit, isDigit, j)
  {
    var mark := MarkAt(s).value;
    var length := Find(s[OPENING..], ']');
    forall j: nat | j < OPENING + |mark| + 1
      ensures !EndsAt(s, afterDigit, isDigit, j)
    {
      if OPENING <= j < OPENING + |mark| {
        var i := j - OPENING;
        assert s[j] == mark[i] && (i > 0 ==> s[j - 1] == mark[i - 1]);
        assert s[j + 1] == if i + 1 < |mark| then mark[i + 1] else ']';
        assert !EndsInside(mark, isDigit, i);
      }
    }
  }

  lemma MarkThenRest(mark: string, rest: string)
    requires mark != "" && ']' !in mark
    ensures FindMarks(Bracketed(mark) + rest) == [mark] + FindMarks(rest)
  {
    BracketedIsFound(mark);
    var s := Bracketed(mark) + rest;
    MarkAtBracketed(mark);
    MarkStays(Bracketed(mark), s);
    assert s[OPENING + |mark| + 1..] == rest;
  }

  lemma MarkIsBracketed(s: string)
    requires MarkAt(s).Some?
    ensures s[..OPENING + |MarkAt(s).value| + 1] == Bracketed(MarkAt(s).value)
  {
  }

  lemma PiecesOfMark(s: string, afterDigit: bool, isDigit: char -> bool)
    requires MarkAt(s).Some? && !IsCut(MarkAt(s).value, isDigit) && !isDigit(':')
    ensures var n := OPENING + |MarkAt(s).value| + 1;
            var all, rest := Pieces(s, afterDigit, isDigit), Pieces(s[n..], isDigit(s[n - 1]), isDigit);
            all[0] == Bracketed(MarkAt(s).value) + rest[0] && all[1..] == rest[1..]
  {
    var n := OPENING + |MarkAt(s).value| + 1;
    MarkIsWhole(s, afterDigit, isDigit);
    FrontStays(s, afterDigit, isDigit, n);
    MarkIsBracketed(s);
  }

  lemma MarksOfFront(all: seq<string>, rest: seq<string>, mark: string)
    requires all != [] && rest != [] && mark != "" && ']' !in mark
    requires all[0] == Bracketed(mark) + rest[0] && all[1..] == rest[1..]
    ensures MarksIn(all) == [mark] + MarksIn(rest)
  {
    MarkThenRest(mark, rest[0]);
    ConcatIsAssociative([mark], FindMarks(rest[0]), MarksIn(rest[1..]));
  }

  ghost predicate NoneCut(marks: seq<string>, isDigit: char -> bool) {
    forall k :: 0 <= k < |marks| ==> !IsCut(marks[k], isDigit)
  }

  lemma NoneCutRest(mark: string, marks: seq<string>, isDigit: char -> bool)
    requires NoneCut([mark] + marks, isDigit)
    ensures !IsCut(mark, isDigit) && NoneCut(marks, isDigit)
  {
    assert ([mark] + marks)[0] == mark;
    assert forall k :: 0 <= k < |marks| ==> marks[k] == ([mark] + marks)[k + 1];
  }

  /** When no mark of the text is cut, the pieces have the marks of the text. */
  lemma {:induction false} PiecesHaveMarks(s: string, afterDigit: bool, isDigit: char -> bool)
    requires !isDigit(':') && NoneCut(FindMarks(s), isDigit)
    ensures MarksIn(Pieces(s, afterDigit, isDigit)) == FindMarks(s)
    decreases |s|
  {
    if s != "" {
      match MarkAt(s)
      case None => PiecesSkip(s, afterDigit, isDigit);
      case Some(mark) =>
        var n := OPENING + |mark| + 1;
        var rest := Pieces(s[n..], isDigit(s[n - 1]), isDigit);
        NoneCutRest(mark, FindMarks(s[n..]), isDigit);
        PiecesHaveMarks(s[n..], isDigit(s[n - 1]), isDigit);
        PiecesOfMark(s, afterDigit, isDigit);
        MarksOfFront(Pieces(s, afterDigit, isDigit), rest, mark);
    }
  }

  lemma PiecesSkip(s: string, afterDigit: bool, isDigit: char -> bool)
    requires !isDigit(':') && s != "" && MarkAt(s).None? && NoneCut(FindMarks(s), isDigit)
    ensures MarksIn(Pieces(s, afterDigit, isDigit)) == FindMarks(s)
    decreases |s|, 0
  {
    PiecesHaveMarks(s[1..], isDigit(s[0]), isDigit);
    if EndsAt(s, afterDigit, isDigit, 0) {
      NoMarkInFirst(s[0], Pieces(s[1..], isDigit(s[0]), isDigit));
    } else {
      NoMarkAtFirst(s, afterDigit, isDigit);
    }
  }

  lemma NoMarkInFirst(c: char, rest: seq<string>)
    ensures MarksIn([[c]] + rest) == MarksIn(rest)
  {
    assert ([[c]] + rest)[1..] == rest;
    assert FindMarks([c]) == FindMarks([c][1..]);
  }

  lemma NoMarkAtFirst(s: string, afterDigit: bool, isDigit: char -> bool)
    requires s != "" && MarkAt(s).None? && !EndsAt(s, afterDigit, isDigit, 0)
    ensures MarksIn(Pieces(s, afterDigit, isDigit)) == MarksIn(Pieces(s[1..], isDigit(s[0]), isDigit))
  {
    var first := Pieces(s, afterDigit, isDigit)[0];
    FirstStays(s, afterDigit, isDigit);
    FirstPieceIsPrefix(s, afterDigit, isDigit);
    if MarkAt(first).Some? {
      MarkStays(first, s);
    }
    assert first[1..] == Pieces(s[1..], isDigit(s[0]), isDigit)[0];
  }

  lemma {:induction false} MarksAfterPlain(a: string, s: string)
    requires '[' !in a
    ensures FindMarks(a + s) == FindMarks(s)
  {
    if a == "" {
      assert a + s == s;
    } else {
      assert a[0] in a && (a + s)[0] == a[0] && (a + s)[1..] == a[1..] + s;
      MarksAfterPlain(a[1..], s);
    }
  }

  /** Texts with a bracketed mark between each two. */
  function Spelled(texts: seq<string>, marks: seq<string>): string
    requires |texts| == |marks| + 1
  {
    if marks == [] then texts[0] else texts[0] + (Bracketed(marks[0]) + Spelled(texts[1..], marks[1..]))
  }

  ghost predicate NoneOpens(texts: seq<string>) {
    forall t :: t in texts ==> '[' !in t
  }

  ghost predicate AllMarks(marks: seq<string>) {
    forall m :: m in marks ==> m != "" && ']' !in m
  }

  lemma SpelledParts(texts: seq<string>, marks: seq<string>)
    requires |texts| == |marks| + 1 && marks != [] && NoneOpens(texts) && AllMarks(marks)
    ensures '[' !in texts[0] && marks[0] != "" && ']' !in marks[0] && NoneOpens(texts[1..]) && AllMarks(marks[1..])
  {
    assert texts[0] in texts && marks[0] in marks;
    assert forall t :: t in texts[1..] ==> t in texts;
    assert forall m :: m in marks[1..] ==> m in marks;
  }

  lemma PlainThenMark(plain: string, mark: string, later: string)
    requires '[' !in plain && mark != "" && ']' !in mark
    ensures FindMarks(plain + (Bracketed(mark) + later)) == [mark] + FindMarks(later)
  {
    MarksAfterPlain(plain, Bracketed(mark) + later);
    MarkThenRest(mark, later);
  }

  /** In texts without opening brackets, exactly the marks between them are found, in order. */
  lemma {:induction false} MarksOfSpelled(texts: seq<string>, marks: seq<string>)
    requires |texts| == |marks| + 1 && NoneOpens(texts) && AllMarks(marks)
    ensures FindMarks(Spelled(texts, marks)) == marks
  {
    if marks == [] {
      assert texts[0] in texts && texts[0] + "" == texts[0];
      MarksAfterPlain(texts[0], "");
    } else {
      SpelledParts(texts, marks);
      PlainThenMark(texts[0], marks[0], Spelled(texts[1..], marks[1..]));
      MarksOfSpelled(texts[1..], marks[1..]);
      assert [marks[0]] + marks[1..] == marks;
    }
  }

  /** No sentence end inside p. */
  ghost predicate IsWhole(p: string, isDigit: char -> bool) {
    forall j: nat :: 1 <= j < |p| - 1 ==> !EndsAt(p, false, isDigit, j)
  }

  lemma {:induction false} PiecesAreWhole(s: string, afterDigit: bool, isDigit: char -> bool, k: nat)
    requires k < |Pieces(s, afterDigit, isDigit)|
    ensures IsWhole(Pieces(s, afterDigit, isDigit)[k], isDigit)
    ensures var p := Pieces(s, afterDigit, isDigit)[0]; |p| > 1 ==> !EndsAt(p, afterDigit, isDigit, 0)
    decreases |s|
  {
    if s != "" {
      var rest := Pieces(s[1..], isDigit(s[0]), isDigit);
      FirstPieceIsPrefix(s[1..], isDigit(s[0]), isDigit);
      PiecesAreWhole(s[1..], isDigit(s[0]), isDigit, 0);
      if EndsAt(s, afterDigit, isDigit, 0) {
        if k > 0 {
          PiecesAreWhole(s[1..], isDigit(s[0]), isDigit, k - 1);
        }
      } else if k > 0 {
        PiecesAreWhole(s[1..], isDigit(s[0]), isDigit, k);
      } else {
        var p := [s[0]] + rest[0];
        forall j: nat | 1 <= j < |p| - 1
          ensures !EndsAt(p, false, isDigit, j)
        {
          if j > 1 {
            assert !EndsAt(rest[0], false, isDigit, j - 1);
          }
          assert !EndsAt(rest[0], isDigit(s[0]), isDigit, j - 1);
        }
      }
    }
  }

  lemma {:induction false} WholeHasNoCutMark(p: string, isDigit: char -> bool, k: nat)
    requires IsWhole(p, isDigit) && k < |FindMarks(p)| && !isDigit(':')
    ensures !IsCut(FindMarks(p)[k], isDigit)
    decreases |p|
  {
    match MarkAt(p)
    case None => WholeStays(p, isDigit, 1); WholeHasNoCutMark(p[1..], isDigit, k);
    case Some(mark) =>
      var n := OPENING + |mark| + 1;
      if k > 0 {
        WholeStays(p, isDigit, n);
        WholeHasNoCutMark(p[n..], isDigit, k - 1);
      } else {
        forall i: nat | i < |mark|
          ensures !EndsInside(mark, isDigit, i)
        {
          var j := i + OPENING;
          assert p[j] == p[..n][j] == mark[i] && p[j - 1] == p[..n][j - 1] && p[j + 1] == p[..n][j + 1];
          assert !EndsAt(p, false, isDigit, j);
        }
      }
  }

  lemma WholeStays(p: string, isDigit: char -> bool, n: nat)
    requires IsWhole(p, isDigit) && n <= |p|
    ensures IsWhole(p[n..], isDigit)
  {
    forall j: nat | 1 <= j < |p| - n - 1
      ensures !EndsAt(p[n..], false, isDigit, j)
    {
      assert !EndsAt(p, false, isDigit, n + j);
    }
  }

  lemma {:induction false} MarksOfPieces(pieces: seq<string>, isDigit: char -> bool, k: nat)
    requires forall i :: 0 <= i < |pieces| ==> IsWhole(pieces[i], isDigit)
    requires k < |MarksIn(pieces)| && !isDigit(':')
    ensures !IsCut(MarksIn(pieces)[k], isDigit)
  {
    var here := |FindMarks(pieces[0])|;
    if k < here {
      WholeHasNoCutMark(pieces[0], isDigit, k);
    } else {
      MarksOfPieces(pieces[1..], isDigit, k - here);
    }
  }

  // ----- Stripping loses no mark -----

  lemma {:induction false} MarksAfterSpace(a: string, s: string)
    requires AllSpace(a)
    ensures FindMarks(a + s) == FindMarks(s)
  {
    if a == "" {
      assert a + s == s;
    } else {
      assert IsSpace(a[0]) && (a + s)[0] == a[0];
      assert (a + s)[1..] == a[1..] + s;
      MarksAfterSpace(a[1..], s);
    }
  }

  lemma {:induction false} NoMarksInSpace(b: string)
    requires AllSpace(b)
    ensures FindMarks(b) == []
  {
    if b != "" {
      assert IsSpace(b[0]);
      NoMarksInSpace(b[1..]);
    }
  }

  lemma MarkEndsBeforeSpace(s: string, b: string)
    requires AllSpace(b) && MarkAt(s + b).Some?
    ensures MarkAt(s) == MarkAt(s + b)
  {
    var mark := MarkAt(s + b).value;
    var n := OPENING + |mark|;
    assert (s + b)[n] == (s + b)[..n + 1][n] == ']';
    assert n >= |s| ==> IsSpace((s + b)[n]);
    assert s[..n + 1] == (s + b)[..n + 1] == Bracketed(mark);
    MarkAtBracketed(mark);
    MarkStays(Bracketed(mark), s);
  }

  lemma MarkBeforeSpace(s: string, b: string)
    requires AllSpace(b)
    ensures MarkAt(s + b) == MarkAt(s)
  {
    if MarkAt(s + b).Some? {
      MarkEndsBeforeSpace(s, b);
    } else if MarkAt(s).Some? {
      MarkStays(s, s + b);
    }
  }

  lemma {:induction false} MarksBeforeSpace(s: string, b: string)
    requires AllSpace(b)
    ensures FindMarks(s + b) == FindMarks(s)
    decreases |s|
  {
    if s == "" {
      assert s + b == b;
      NoMarksInSpace(b);
    } else {
      MarkBeforeSpace(s, b);
      var n := if MarkAt(s).Some? then OPENING + |MarkAt(s).value| + 1 else 1;
      assert (s + b)[n..] == s[n..] + b;
      MarksBeforeSpace(s[n..], b);
    }
  }

  lemma MarksOfStripped(s: string)
    ensures FindMarks(Strip(s)) == FindMarks(s)
  {
    var a, b := StripParts(s);
    assert s == a + (Strip(s) + b);
    MarksAfterSpace(a, Strip(s) + b);
    MarksBeforeSpace(Strip(s), b);
  }

  lemma {:induction false} MarksOfTrimmed(pieces: seq<string>)
    ensures MarksIn(Trimmed(pieces)) == MarksIn(pieces)
  {
    if pieces != [] {
      MarksOfTrimmed(pieces[1..]);
      MarksOfStripped(pieces[0]);
      if Strip(pieces[0]) != "" {
        assert ([Strip(pieces[0])] + Trimmed(pieces[1..]))[1..] == Trimmed(pieces[1..]);
      }
    }
  }

  /** The sentences have the marks of the text, in order, exactly when no mark has a sentence
      end inside its brackets; a mark that has one is never found. */
  lemma MarksSurviveIff(text: string, isDigit: char -> bool)
    requires !isDigit(':')
    ensures MarksIn(Sentences(text, isDigit)) == FindMarks(text)
       <==> NoneCut(FindMarks(text), isDigit)
    ensures NoneCut(MarksIn(Sentences(text, isDigit)), isDigit)
  {
    var pieces := Pieces(text, false, isDigit);
    MarksOfTrimmed(pieces);
    forall i | 0 <= i < |pieces|
      ensures IsWhole(pieces[i], isDigit)
    {
      PiecesAreWhole(text, false, isDigit, i);
    }
    forall k | 0 <= k < |MarksIn(pieces)|
      ensures !IsCut(MarksIn(pieces)[k], isDigit)
    {
      MarksOfPieces(pieces, isDigit, k);
    }
    if NoneCut(FindMarks(text), isDigit) {
      PiecesHaveMarks(text, false, isDigit);
    }
  }

  // ----- The parser -----

  datatype SentenceCitation = SentenceCitation(sentence: string, index: nat, citations: seq<CitationRef>)

  datatype ParseIssue = ParseIssue(index: nat, sentence: string, error: MarkError)

  datatype ParserResult = ParserResult(
    sentences: seq<SentenceCitation>, totalSentences: nat, sentencesWithRefs: nat, totalRefs: nat,
    parseErrors: seq<ParseIssue>)

  /** The marks that parse, in order. */
  function Accepted(marks: seq<string>): seq<CitationRef> {
    if marks == [] then []
    else
      var ref, rest := Parse(marks[0]), Accepted(marks[1..]);
      if ref.parseError.None? then [ref] + rest else rest
  }

  /** The errors of the marks that do not, with the start of their sentence. */
  function Issues(index: nat, sentence: string, marks: seq<string>): seq<ParseIssue> {
    if marks == [] then []
    else
      var ref, rest := Parse(marks[0]), Issues(index, sentence, marks[1..]);
      if ref.parseError.None? then rest else [ParseIssue(index, Slice(sentence, 0, 100), ref.parseError.value)] + rest
  }

  function CountAccepted(sentences: seq<string>): nat {
    if sentences == [] then 0 else |Accepted(FindMarks(sentences[0]))| + CountAccepted(sentences[1..])
  }

  function CountCiting(sentences: seq<string>): nat {
    if sentences == [] then 0
    else CountCiting(sentences[1..]) + if Accepted(FindMarks(sentences[0])) != [] then 1 else 0
  }

  function AllIssues(sentences: seq<string>, index: nat): seq<ParseIssue> {
    if sentences == [] then []
    else Issues(index, sentences[0], FindMarks(sentences[0])) + AllIssues(sentences[1..], index + 1)
  }

  /** Each sentence has the citations of its own marks. */
  ghost predicate HasCitations(parsed: seq<SentenceCitation>, sentences: seq<string>, n: nat) {
    && |parsed| == n <= |sentences|
    && forall i :: 0 <= i < n ==> parsed[i] == SentenceCitation(sentences[i], i, Accepted(FindMarks(sentences[i])))
  }

  method ExtractRefs(sentence: string) returns (refs: seq<CitationRef>)
    ensures |refs| == |FindMarks(sentence)|
    ensures forall k :: 0 <= k < |refs| ==> refs[k] == Parse(FindMarks(sentence)[k])
  {
    var marks := FindMarks(sentence);
    refs := [];
    for i := 0 to |marks|
      invariant |refs| == i
      invariant forall k :: 0 <= k < i ==> refs[k] == Parse(marks[k])
    {
      var ref := ParseRefMark(marks[i]);
      refs := refs + [ref];
    }
  }

  /** The inner loop of the parser: one sentence. */
  method ParseSentence(index: nat, sentence: string) returns (sentRefs: seq<CitationRef>, errors: seq<ParseIssue>)
    ensures sentRefs == Accepted(FindMarks(sentence))
    ensures errors == Issues(index, sentence, FindMarks(sentence))
  {
    var refs := ExtractRefs(sentence);
    ghost var marks := FindMarks(sentence);
    sentRefs, errors := [], [];
    for i := 0 to |refs|
      invariant Remains(Accepted(marks), sentRefs, Accepted(marks[i..]))
      invariant Remains(Issues(index, sentence, marks), errors, Issues(index, sentence, marks[i..]))
    {
      assert marks[i..][1..] == marks[i + 1..];
      if refs[i].parseError.Some? {
        var issue := ParseIssue(index, Slice(sentence, 0, 100), refs[i].parseError.value);
        Advance(Issues(index, sentence, marks), errors, [issue], Issues(index, sentence, marks[i + 1..]));
        errors := errors + [issue];
      } else {
        Advance(Accepted(marks), sentRefs, [refs[i]], Accepted(marks[i + 1..]));
        sentRefs := sentRefs + [refs[i]];
      }
    }
    NothingRemains(Accepted(marks), sentRefs);
    NothingRemains(Issues(index, sentence, marks), errors);
  }

  lemma NextSentence(sentences: seq<string>, idx: nat)
    requires idx < |sentences|
    ensures var marks, rest := FindMarks(sentences[idx]), sentences[idx + 1..];
            && CountAccepted(sentences[idx..]) == |Accepted(marks)| + CountAccepted(rest)
            && CountCiting(sentences[idx..]) == CountCiting(rest) + (if Accepted(marks) != [] then 1 else 0)
            && AllIssues(sentences[idx..], idx) == Issues(idx, sentences[idx], marks) + AllIssues(rest, idx + 1)
  {
    assert sentences[idx..][0] == sentences[idx] && sentences[idx..][1..] == sentences[idx + 1..];
  }

  lemma NextCitations(parsed: seq<SentenceCitation>, sentences: seq<string>, n: nat, refs: seq<CitationRef>)
    requires HasCitations(parsed, sentences, n) && n < |sentences| && refs == Accepted(FindMarks(sentences[n]))
    ensures HasCitations(parsed + [SentenceCitation(sentences[n], n, refs)], sentences, n + 1)
  {
  }

  /** Every mark of every sentence is counted once: as a citation of its sentence, or as an error. */
  method ParseText(text: string, isDigit: char -> bool) returns (result: ParserResult)
    ensures HasCitations(result.sentences, Sentences(text, isDigit), |Sentences(text, isDigit)|)
    ensures result.totalSentences == |Sentences(text, isDigit)|
    ensures result.parseErrors == AllIssues(Sentences(text, isDigit), 0)
    ensures result.totalRefs == CountAccepted(Sentences(text, isDigit))
    ensures result.sentencesWithRefs == CountCiting(Sentences(text, isDigit))
    ensures result.totalRefs + |result.parseErrors| == |MarksIn(Sentences(text, isDigit))|
  {
    var sentences := SplitSentences(text, isDigit);
    var parsed: seq<SentenceCitation> := [];
    var parseErrors: seq<ParseIssue> := [];
    var totalRefs, sentencesWithRefs := 0, 0;
    ghost var accepted, citing, issues := CountAccepted(sentences), CountCiting(sentences), AllIssues(sentences, 0);
    assert sentences[0..] == sentences;
    for idx := 0 to |sentences|
      invariant HasCitations(parsed, sentences, idx)
      invariant totalRefs + CountAccepted(sentences[idx..]) == accepted
      invariant sentencesWithRefs + CountCiting(sentences[idx..]) == citing
      invariant Remains(issues, parseErrors, AllIssues(sentences[idx..], idx))
    {
      NextSentence(sentences, idx);
      var sentRefs, errors := ParseSentence(idx, sentences[idx]);
      Advance(issues, parseErrors, errors, AllIssues(sentences[idx + 1..], idx + 1));
      NextCitations(parsed, sentences, idx, sentRefs);
      parseErrors := parseErrors + errors;
      totalRefs := totalRefs + |sentRefs|;
      parsed := parsed + [SentenceCitation(sentences[idx], idx, sentRefs)];
      if sentRefs != [] {
        sentencesWithRefs := sentencesWithRefs + 1;
      }
    }
    NothingRemains(issues, parseErrors);
    AllMarksCounted(sentences, 0);
    result := ParserResult(parsed, |sentences|, sentencesWithRefs, totalRefs, parseErrors);
  }

  lemma {:induction false} MarksCounted(index: nat, sentence: string, marks: seq<string>)
    ensures |Accepted(marks)| + |Issues(index, sentence, marks)| == |marks|
  {
    if marks != [] {
      MarksCounted(index, sentence, marks[1..]);
    }
  }

  lemma {:induction false} AllMarksCounted(sentences: seq<string>, index: nat)
    ensures CountAccepted(sentences) + |AllIssues(sentences, index)| == |MarksIn(sentences)|
  {
    if sentences != [] {
      MarksCounted(index, sentences[0], FindMarks(sentences[0]));
      AllMarksCounted(sentences[1..], index + 1);
    }
  }

  /** The accepted citations are those of the marks that parse, each with its own references. */
  lemma {:induction false} AcceptedIff(marks: seq<string>, ref: CitationRef)
    ensures ref in Accepted(marks) <==> ref.parseError.None? && exists mark :: mark in marks && Parse(mark) == ref
  {
    if marks != [] {
      AcceptedIff(marks[1..], ref);
      assert forall mark :: mark in marks <==> mark == marks[0] || mark in marks[1..];
    }
  }

  /** Some mark of the sentence parses. */
  ghost predicate Cites(sentence: string) {
    exists mark :: mark in FindMarks(sentence) && Parse(mark).parseError.None?
  }

  lemma AcceptsIff(sentence: string)
    ensures Accepted(FindMarks(sentence)) != [] <==> Cites(sentence)
  {
    var refs := Accepted(FindMarks(sentence));
    if refs != [] {
      AcceptedIff(FindMarks(sentence), refs[0]);
    }
    if mark :| mark in FindMarks(sentence) && Parse(mark).parseError.None? {
      AcceptedIff(FindMarks(sentence), Parse(mark));
    }
  }

  /** sentences_with_refs counts the sentences with a mark that parses. */
  lemma {:induction false} CitingAreCounted(sentences: seq<string>)
    ensures CountCiting(sentences) == |Filter((s: string) => Accepted(FindMarks(s)) != [], sentences)|
    ensures forall s :: s in Filter((s: string) => Accepted(FindMarks(s)) != [], sentences) <==> s in sentences && Cites(s)
  {
    if sentences != [] {
      CitingAreCounted(sentences[1..]);
      AcceptsIff(sentences[0]);
      assert forall s :: s in sentences <==> s == sentences[0] || s in sentences[1..];
    }
  }
}
