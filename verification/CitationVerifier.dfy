/** The citation verifier: each citation gets the best confidence that any of its references
    reaches with any chunk of the document it names. */
module CitationVerifier {
  import opened Options
  import opened Text
  import opened CitationMarks
  import opened CitationParser

  // ----- Page ranges -----

  datatype PageRange = PageRange(start: int, end: int) {
    predicate Contains(other: PageRange) {
      start <= other.start && end >= other.end
    }

    predicate Overlaps(other: PageRange) {
      start <= other.end && other.start <= end
    }

    predicate Has(page: int) {
      start <= page <= end
    }

    /** The pages of the range. */
    ghost function Pages(): set<int> {
      set p | start <= p <= end && Has(p)
    }
  }

  function SkipNonDigits(s: string, isDigit: char -> bool): string {
    if s == "" || isDigit(s[0]) then s else SkipNonDigits(s[1..], isDigit)
  }

  /** A page or a range of pages; toInt is int(), None where int() raises. */
  function ParsePages(raw: string, isDigit: char -> bool, toInt: string -> Option<int>): (pages: Option<PageRange>)
    ensures pages.Some? ==> pages.value.start <= pages.value.end
  {
    var numPart := SkipNonDigits(Strip(raw), isDigit);
    var dash := Find(numPart, '-');
    if dash < |numPart| then
      match (toInt(Strip(numPart[..dash])), toInt(Strip(numPart[dash + 1..])))
      case (Some(a), Some(b)) => Some(if a > b then PageRange(b, a) else PageRange(a, b))
      case _ => None
    else
      match toInt(numPart)
      case Some(page) => Some(PageRange(page, page))
      case None => None
  }

  function Max(a: int, b: int): int {
    if a > b then a else b
  }

  function Min(a: int, b: int): int {
    if a < b then a else b
  }

  function PageOverlap(ref: PageRange, chunk: PageRange): real {
    if !ref.Overlaps(chunk) then 0.0
    else
      var overlap := Min(ref.end, chunk.end) - Max(ref.start, chunk.start) + 1;
      var union := (ref.end - ref.start + 1) + (chunk.end - chunk.start + 1) - overlap;
      if union == 0 then 0.0 else overlap as real / union as real
  }

  lemma {:induction false} CountPages(r: PageRange)
    requires r.start <= r.end + 1
    ensures |r.Pages()| == r.end - r.start + 1
    decreases r.end - r.start
  {
    if r.start <= r.end {
      CountPages(PageRange(r.start + 1, r.end));
      assert r.Pages() == PageRange(r.start + 1, r.end).Pages() + {r.start};
    } else {
      assert r.Pages() == {};
    }
  }

  /** For ranges that do not run backwards, the overlap is the Jaccard index of the two sets
      of pages. */
  lemma OverlapIsJaccard(ref: PageRange, chunk: PageRange)
    requires ref.start <= ref.end && chunk.start <= chunk.end
    ensures var both, either := |ref.Pages() * chunk.Pages()|, |ref.Pages() + chunk.Pages()|;
            either > 0 && PageOverlap(ref, chunk) == both as real / either as real
  {
    CountPages(ref);
    CountPages(chunk);
    var common := PageRange(Max(ref.start, chunk.start), Min(ref.end, chunk.end));
    assert ref.Pages() * chunk.Pages() == common.Pages();
    if ref.Overlaps(chunk) {
      CountPages(common);
    } else {
      assert common.Pages() == {};
    }
  }

  lemma FractionInUnit(a: int, b: int)
    requires b > 0
    ensures 0.0 <= a as real / b as real <==> 0 <= a
    ensures a as real / b as real <= 1.0 <==> a <= b
  {
    var q := a as real / b as real;
    assert q * b as real == a as real;
    if a < 0 {
      assert q < 0.0;
    }
  }

  /** The overlap lies between 0 and 1, as it is said to, exactly when the chunk's range runs at
      most one page backwards or does not meet the reference: it is negative otherwise. */
  lemma OverlapInUnitIff(ref: PageRange, chunk: PageRange)
    requires ref.start <= ref.end
    ensures 0.0 <= PageOverlap(ref, chunk) <= 1.0 <==> chunk.start <= chunk.end + 1 || !ref.Overlaps(chunk)
  {
    if ref.Overlaps(chunk) {
      var overlap := Min(ref.end, chunk.end) - Max(ref.start, chunk.start) + 1;
      var union := (ref.end - ref.start + 1) + (chunk.end - chunk.start + 1) - overlap;
      assert union > 0;
      FractionInUnit(overlap, union);
    }
  }

  // ----- Parsing page ranges -----

  lemma {:induction false} SkipsPrefix(prefix: string, s: string, isDigit: char -> bool)
    requires (forall i :: 0 <= i < |prefix| ==> !isDigit(prefix[i])) && s != "" && isDigit(s[0])
    ensures SkipNonDigits(prefix + s, isDigit) == s
  {
    if prefix == "" {
      assert prefix + s == s;
    } else {
      assert (prefix + s)[1..] == prefix[1..] + s;
      SkipsPrefix(prefix[1..], s, isDigit);
    }
  }

  lemma FindDash(a: string, b: string)
    requires '-' !in a
    ensures Find(a + "-" + b, '-') == |a|
  {
    var s := a + "-" + b;
    assert s[|a|] == '-';
    assert forall j :: 0 <= j < |a| ==> s[j] == a[j];
  }

  /** A number after a prefix without digits is a range of that one page. */
  lemma PageIsParsed(prefix: string, number: string, page: int, isDigit: char -> bool, toInt: string -> Option<int>)
    requires forall i :: 0 <= i < |prefix| ==> !isDigit(prefix[i])
    requires number != "" && isDigit(number[0]) && '-' !in number && Stripped(prefix + number)
    requires toInt(number) == Some(page)
    ensures ParsePages(prefix + number, isDigit, toInt) == Some(PageRange(page, page))
  {
    SkipsPrefix(prefix, number, isDigit);
  }

  /** Two numbers with a dash between them are the range from the smaller to the larger. */
  lemma RangeIsParsed(prefix: string, a: string, b: string, m: int, n: int, isDigit: char -> bool, toInt: string -> Option<int>)
    requires forall i :: 0 <= i < |prefix| ==> !isDigit(prefix[i])
    requires a != "" && isDigit(a[0]) && '-' !in a && Stripped(prefix + (a + "-" + b))
    requires toInt(Strip(a)) == Some(m) && toInt(Strip(b)) == Some(n)
    ensures ParsePages(prefix + (a + "-" + b), isDigit, toInt) == Some(PageRange(Min(m, n), Max(m, n)))
  {
    var numPart := a + "-" + b;
    assert numPart[0] == a[0];
    SkipsPrefix(prefix, numPart, isDigit);
    FindDash(a, b);
    assert numPart[..|a|] == a && numPart[|a| + 1..] == b;
  }

  // ----- Confidence -----

  datatype Confidence = Uncertain | Fuzzy | Direct {
    function Rank(): nat {
      match this
      case Uncertain => 0
      case Fuzzy => 1
      case Direct => 2
    }
  }

  datatype ContextChunk =
    ContextChunk(chunkId: string, documentId: string, content: string, pageStart: int, pageEnd: int)

  datatype MatchedChunk =
    MatchedChunk(chunkId: string, documentId: string, pageStart: int, pageEnd: int, excerpt: string, similarity: real)

  datatype VerifiedCitation =
    VerifiedCitation(refId: string, sentence: string, sentenceIndex: nat, confidence: Confidence, matchedChunks: seq<MatchedChunk>)

  /** What the verifier is built with, and the functions it relies on. */
  datatype Verifier = Verifier(
    threshold: real,
    similarity: (string, string) -> real,
    rounded: real -> real,
    isDigit: char -> bool,
    toInt: string -> Option<int>)

  function DetermineConfidence(exactPages: bool, similarity: real, threshold: real): Confidence {
    if exactPages && similarity >= threshold then Direct
    else if similarity >= threshold then Fuzzy
    else Uncertain
  }

  /** How well one chunk supports one reference of a sentence. */
  function Support(v: Verifier, sentence: string, ref: DocRef, chunk: ContextChunk): Confidence {
    var pages := ParsePages(ref.pageRange, v.isDigit, v.toInt);
    var exact := pages.Some? && PageRange(chunk.pageStart, chunk.pageEnd).Contains(pages.value);
    DetermineConfidence(exact, v.similarity(sentence, chunk.content), v.threshold)
  }

  function ToMatch(v: Verifier, sentence: string, chunk: ContextChunk): MatchedChunk {
    MatchedChunk(chunk.chunkId, chunk.documentId, chunk.pageStart, chunk.pageEnd, Slice(chunk.content, 0, 200),
                 v.rounded(v.similarity(sentence, chunk.content)))
  }

  function Better(a: Confidence, b: Confidence): Confidence {
    if a.Rank() >= b.Rank() then a else b
  }

  /** The chunks of a document, in order. */
  function ChunksOf(chunks: seq<ContextChunk>, docId: string): seq<ContextChunk> {
    if chunks == [] then []
    else
      var before, last := ChunksOf(chunks[..|chunks| - 1], docId), chunks[|chunks| - 1];
      if last.documentId == docId then before + [last] else before
  }

  lemma {:induction false} ChunksOfElements(chunks: seq<ContextChunk>, docId: string, c: ContextChunk)
    ensures c in ChunksOf(chunks, docId) <==> c in chunks && c.documentId == docId
  {
    if chunks != [] {
      ChunksOfElements(chunks[..|chunks| - 1], docId, c);
      assert chunks == chunks[..|chunks| - 1] + [chunks[|chunks| - 1]];
    }
  }

  /** The index holds, for every document that has chunks, its chunks. */
  ghost predicate IsIndex(index: map<string, seq<ContextChunk>>, chunks: seq<ContextChunk>) {
    forall d :: ChunksOf(chunks, d) == if d in index then index[d] else []
  }

  method BuildChunkIndex(chunks: seq<ContextChunk>) returns (index: map<string, seq<ContextChunk>>)
    ensures IsIndex(index, chunks)
  {
    index := map[];
    for i := 0 to |chunks|
      invariant IsIndex(index, chunks[..i])
    {
      assert chunks[..i + 1][..i] == chunks[..i];
      var d := chunks[i].documentId;
      var listed := if d in index then index[d] else [];
      index := index[d := listed + [chunks[i]]];
    }
    assert chunks[..|chunks|] == chunks;
  }

  // ----- One citation -----

  /** The best support among some chunks of the document a reference names. */
  function BestOfChunks(v: Verifier, sentence: string, ref: DocRef, docChunks: seq<ContextChunk>): Confidence {
    if docChunks == [] then Uncertain
    else Better(Support(v, sentence, ref, docChunks[0]), BestOfChunks(v, sentence, ref, docChunks[1..]))
  }

  function MatchesOfChunks(v: Verifier, sentence: string, ref: DocRef, docChunks: seq<ContextChunk>): seq<MatchedChunk> {
    if docChunks == [] then []
    else
      var rest := MatchesOfChunks(v, sentence, ref, docChunks[1..]);
      if Support(v, sentence, ref, docChunks[0]) == Uncertain then rest
      else [ToMatch(v, sentence, docChunks[0])] + rest
  }

  function BestOfRefs(v: Verifier, sentence: string, refs: seq<DocRef>, chunks: seq<ContextChunk>): Confidence {
    if refs == [] then Uncertain
    else Better(BestOfChunks(v, sentence, refs[0], ChunksOf(chunks, refs[0].docId)), BestOfRefs(v, sentence, refs[1..], chunks))
  }

  function MatchesOfRefs(v: Verifier, sentence: string, refs: seq<DocRef>, chunks: seq<ContextChunk>): seq<MatchedChunk> {
    if refs == [] then []
    else
      MatchesOfChunks(v, sentence, refs[0], ChunksOf(chunks, refs[0].docId)) + MatchesOfRefs(v, sentence, refs[1..], chunks)
  }

  function Verified(v: Verifier, ref: CitationRef, sentence: string, index: nat, chunks: seq<ContextChunk>): VerifiedCitation {
    if ref.isUncertain then VerifiedCitation("uncertain", sentence, index, Uncertain, [])
    else
      VerifiedCitation(Print(ref), sentence, index, BestOfRefs(v, sentence, ref.docRefs, chunks),
                       MatchesOfRefs(v, sentence, ref.docRefs, chunks))
  }

  /** The inner loop: the chunks of one reference. */
  method MatchDocRef(v: Verifier, sentence: string, ref: DocRef, docChunks: seq<ContextChunk>, best: Confidence)
      returns (matched: seq<MatchedChunk>, bestConfidence: Confidence)
    ensures matched == MatchesOfChunks(v, sentence, ref, docChunks)
    ensures bestConfidence == Better(best, BestOfChunks(v, sentence, ref, docChunks))
  {
    var refPages := ParsePages(ref.pageRange, v.isDigit, v.toInt);
    matched, bestConfidence := [], best;
    ghost var expected := MatchesOfChunks(v, sentence, ref, docChunks);
    for i := 0 to |docChunks|
      invariant Remains(expected, matched, MatchesOfChunks(v, sentence, ref, docChunks[i..]))
      invariant Better(bestConfidence, BestOfChunks(v, sentence, ref, docChunks[i..]))
             == Better(best, BestOfChunks(v, sentence, ref, docChunks))
    {
      assert docChunks[i..][1..] == docChunks[i + 1..];
      var chunk := docChunks[i];
      var exact := refPages.Some? && PageRange(chunk.pageStart, chunk.pageEnd).Contains(refPages.value);
      var similarity := v.similarity(sentence, chunk.content);
      var confidence := DetermineConfidence(exact, similarity, v.threshold);
      if confidence != Uncertain {
        var found := MatchedChunk(chunk.chunkId, chunk.documentId, chunk.pageStart, chunk.pageEnd,
                                  Slice(chunk.content, 0, 200), v.rounded(similarity));
        Advance(expected, matched, [found], MatchesOfChunks(v, sentence, ref, docChunks[i + 1..]));
        matched := matched + [found];
        if confidence == Direct {
          bestConfidence := Direct;
        } else if confidence == Fuzzy && bestConfidence != Direct {
          bestConfidence := Fuzzy;
        }
      }
    }
    NothingRemains(expected, matched);
  }

  method VerifySingle(v: Verifier, ref: CitationRef, sentence: string, sentenceIndex: nat,
                      index: map<string, seq<ContextChunk>>, ghost chunks: seq<ContextChunk>)
      returns (citation: VerifiedCitation)
    requires IsIndex(index, chunks)
    ensures citation == Verified(v, ref, sentence, sentenceIndex, chunks)
  {
    if ref.isUncertain {
      return VerifiedCitation("uncertain", sentence, sentenceIndex, Uncertain, []);
    }
    var matched: seq<MatchedChunk> := [];
    var best := Uncertain;
    var refs := ref.docRefs;
    ghost var expected := MatchesOfRefs(v, sentence, refs, chunks);
    for i := 0 to |refs|
      invariant Remains(expected, matched, MatchesOfRefs(v, sentence, refs[i..], chunks))
      invariant Better(best, BestOfRefs(v, sentence, refs[i..], chunks)) == BestOfRefs(v, sentence, refs, chunks)
    {
      assert refs[i..][1..] == refs[i + 1..];
      var docChunks := if refs[i].docId in index then index[refs[i].docId] else [];
      assert docChunks == ChunksOf(chunks, refs[i].docId);
      var found, best' := MatchDocRef(v, sentence, refs[i], docChunks, best);
      Advance(expected, matched, found, MatchesOfRefs(v, sentence, refs[i + 1..], chunks));
      matched, best := matched + found, best';
    }
    NothingRemains(expected, matched);
    citation := VerifiedCitation(Print(ref), sentence, sentenceIndex, best, matched);
  }

  // ----- What the confidence means -----

  /** Some chunk of a document named by some reference gives this much support. */
  ghost predicate Reaches(v: Verifier, sentence: string, refs: seq<DocRef>, chunks: seq<ContextChunk>, level: Confidence) {
    exists r, c :: r in refs && c in chunks && Supports(v, sentence, r, c, level)
  }

  predicate Supports(v: Verifier, sentence: string, ref: DocRef, chunk: ContextChunk, level: Confidence) {
    chunk.documentId == ref.docId && Support(v, sentence, ref, chunk) == level
  }

  lemma {:induction false} BestOfChunksIsMaximum(v: Verifier, sentence: string, ref: DocRef, docChunks: seq<ContextChunk>)
    ensures var best := BestOfChunks(v, sentence, ref, docChunks);
            && (best != Uncertain ==> exists c :: c in docChunks && Support(v, sentence, ref, c) == best)
            && forall c :: c in docChunks ==> Support(v, sentence, ref, c).Rank() <= best.Rank()
  {
    if docChunks != [] {
      BestOfChunksIsMaximum(v, sentence, ref, docChunks[1..]);
      assert forall c :: c in docChunks[1..] ==> c in docChunks;
      assert docChunks == [docChunks[0]] + docChunks[1..];
    }
  }

  /** The confidence reached with the chunks of one reference. */
  lemma BestOfDocument(v: Verifier, sentence: string, ref: DocRef, chunks: seq<ContextChunk>)
    ensures var best := BestOfChunks(v, sentence, ref, ChunksOf(chunks, ref.docId));
            && (best != Uncertain ==> exists c :: c in chunks && Supports(v, sentence, ref, c, best))
            && forall c :: c in chunks && c.documentId == ref.docId ==> Support(v, sentence, ref, c).Rank() <= best.Rank()
  {
    var docChunks := ChunksOf(chunks, ref.docId);
    BestOfChunksIsMaximum(v, sentence, ref, docChunks);
    forall c
      ensures c in docChunks <==> c in chunks && c.documentId == ref.docId
    {
      ChunksOfElements(chunks, ref.docId, c);
    }
  }

  lemma {:induction false} BestIsMaximum(v: Verifier, sentence: string, refs: seq<DocRef>, chunks: seq<ContextChunk>)
    ensures var best := BestOfRefs(v, sentence, refs, chunks);
            && (best != Uncertain ==> Reaches(v, sentence, refs, chunks, best))
            && forall r, c :: r in refs && c in chunks && c.documentId == r.docId
                              ==> Support(v, sentence, r, c).Rank() <= best.Rank()
  {
    if refs != [] {
      BestOfDocument(v, sentence, refs[0], chunks);
      BestIsMaximum(v, sentence, refs[1..], chunks);
      assert refs == [refs[0]] + refs[1..];
      var best := BestOfRefs(v, sentence, refs, chunks);
      if best != Uncertain && best == BestOfChunks(v, sentence, refs[0], ChunksOf(chunks, refs[0].docId)) {
        var c :| c in chunks && Supports(v, sentence, refs[0], c, best);
        assert refs[0] in refs;
      }
    }
  }

  /** A citation is direct when some pair of reference and chunk is, fuzzy when none is direct
      and some pair is fuzzy, and uncertain otherwise. */
  lemma ConfidenceIsBestPair(v: Verifier, ref: CitationRef, sentence: string, index: nat, chunks: seq<ContextChunk>)
    requires !ref.isUncertain
    ensures var confidence := Verified(v, ref, sentence, index, chunks).confidence;
            && (confidence == Direct <==> Reaches(v, sentence, ref.docRefs, chunks, Direct))
            && (confidence == Fuzzy <==> !Reaches(v, sentence, ref.docRefs, chunks, Direct) && Reaches(v, sentence, ref.docRefs, chunks, Fuzzy))
  {
    BestIsMaximum(v, sentence, ref.docRefs, chunks);
    if Reaches(v, sentence, ref.docRefs, chunks, Direct) {
      var r, c :| r in ref.docRefs && c in chunks && Supports(v, sentence, r, c, Direct);
      assert Support(v, sentence, r, c).Rank() == 2;
    } else if Reaches(v, sentence, ref.docRefs, chunks, Fuzzy) {
      var r, c :| r in ref.docRefs && c in chunks && Supports(v, sentence, r, c, Fuzzy);
      assert Support(v, sentence, r, c).Rank() == 1;
    }
  }

  /** Some chunk of a document named by some reference is at least this similar to the sentence. */
  ghost predicate SimilarAt(v: Verifier, sentence: string, refs: seq<DocRef>, chunks: seq<ContextChunk>, least: real) {
    exists r, c :: r in refs && c in chunks && AboutAsSimilar(v, sentence, r, c, least)
  }

  predicate AboutAsSimilar(v: Verifier, sentence: string, ref: DocRef, chunk: ContextChunk, least: real) {
    chunk.documentId == ref.docId && v.similarity(sentence, chunk.content) >= least
  }

  /** A citation is more than uncertain exactly when some chunk reaches the threshold. A chunk that
      is just as similar as the threshold asks is enough, where the documentation wants more. */
  lemma ThresholdIsEnough(v: Verifier, ref: CitationRef, sentence: string, index: nat, chunks: seq<ContextChunk>)
    requires !ref.isUncertain
    ensures Verified(v, ref, sentence, index, chunks).confidence != Uncertain
       <==> SimilarAt(v, sentence, ref.docRefs, chunks, v.threshold)
  {
    BestIsMaximum(v, sentence, ref.docRefs, chunks);
    var best := BestOfRefs(v, sentence, ref.docRefs, chunks);
    if best != Uncertain {
      var r, c :| r in ref.docRefs && c in chunks && Supports(v, sentence, r, c, best);
      assert AboutAsSimilar(v, sentence, r, c, v.threshold);
    }
    if SimilarAt(v, sentence, ref.docRefs, chunks, v.threshold) {
      var r, c :| r in ref.docRefs && c in chunks && AboutAsSimilar(v, sentence, r, c, v.threshold);
      assert Support(v, sentence, r, c).Rank() >= 1;
    }
  }

  /** The pages of the reference can be read and all lie in the chunk. */
  predicate HoldsPages(v: Verifier, ref: DocRef, chunk: ContextChunk) {
    var pages := ParsePages(ref.pageRange, v.isDigit, v.toInt);
    pages.Some? && chunk.pageStart <= pages.value.start <= pages.value.end <= chunk.pageEnd
  }

  /** Some chunk of a document named by some reference holds that reference's pages and reaches the
      threshold. */
  ghost predicate ExactAt(v: Verifier, sentence: string, refs: seq<DocRef>, chunks: seq<ContextChunk>) {
    exists r, c :: r in refs && c in chunks && IsExact(v, sentence, r, c)
  }

  predicate IsExact(v: Verifier, sentence: string, ref: DocRef, chunk: ContextChunk) {
    AboutAsSimilar(v, sentence, ref, chunk, v.threshold) && HoldsPages(v, ref, chunk)
  }

  lemma ExactIsDirect(v: Verifier, sentence: string, ref: DocRef, chunk: ContextChunk)
    ensures IsExact(v, sentence, ref, chunk) <==> Supports(v, sentence, ref, chunk, Direct)
  {
  }

  /** A citation is direct exactly when some chunk of a document it names holds all pages of that
      reference and is at least as similar to the sentence as the threshold. */
  lemma DirectIff(v: Verifier, ref: CitationRef, sentence: string, index: nat, chunks: seq<ContextChunk>)
    requires !ref.isUncertain
    ensures Verified(v, ref, sentence, index, chunks).confidence == Direct <==> ExactAt(v, sentence, ref.docRefs, chunks)
  {
    ConfidenceIsBestPair(v, ref, sentence, index, chunks);
    if Reaches(v, sentence, ref.docRefs, chunks, Direct) {
      var r, c :| r in ref.docRefs && c in chunks && Supports(v, sentence, r, c, Direct);
      ExactIsDirect(v, sentence, r, c);
    }
    if ExactAt(v, sentence, ref.docRefs, chunks) {
      var r, c :| r in ref.docRefs && c in chunks && IsExact(v, sentence, r, c);
      ExactIsDirect(v, sentence, r, c);
    }
  }

  /** Where the pages cannot be read or some of them lie outside every such chunk, enough similarity
      gives a fuzzy citation, and less an uncertain one. */
  lemma FuzzyIff(v: Verifier, ref: CitationRef, sentence: string, index: nat, chunks: seq<ContextChunk>)
    requires !ref.isUncertain
    ensures Verified(v, ref, sentence, index, chunks).confidence == Fuzzy
       <==> SimilarAt(v, sentence, ref.docRefs, chunks, v.threshold) && !ExactAt(v, sentence, ref.docRefs, chunks)
  {
    DirectIff(v, ref, sentence, index, chunks);
    ThresholdIsEnough(v, ref, sentence, index, chunks);
  }

  lemma {:induction false} MatchesOfDocument(v: Verifier, sentence: string, ref: DocRef, docChunks: seq<ContextChunk>, m: MatchedChunk)
    ensures m in MatchesOfChunks(v, sentence, ref, docChunks)
       <==> exists c :: c in docChunks && v.similarity(sentence, c.content) >= v.threshold && m == ToMatch(v, sentence, c)
  {
    if docChunks != [] {
      MatchesOfDocument(v, sentence, ref, docChunks[1..], m);
      assert forall c :: c in docChunks <==> c == docChunks[0] || c in docChunks[1..];
    }
  }

  /** m is what is reported of chunk c. */
  predicate Reports(v: Verifier, sentence: string, c: ContextChunk, m: MatchedChunk) {
    && m.chunkId == c.chunkId && m.documentId == c.documentId
    && m.pageStart == c.pageStart && m.pageEnd == c.pageEnd
    && m.excerpt == c.content[..if |c.content| < 200 then |c.content| else 200]
    && m.similarity == v.rounded(v.similarity(sentence, c.content))
  }

  lemma ReportsIff(v: Verifier, sentence: string, c: ContextChunk, m: MatchedChunk)
    ensures Reports(v, sentence, c, m) <==> m == ToMatch(v, sentence, c)
  {
    assert Slice(c.content, 0, 200) == c.content[..if |c.content| < 200 then |c.content| else 200];
  }

  predicate ReportsPair(v: Verifier, sentence: string, ref: DocRef, c: ContextChunk, m: MatchedChunk) {
    AboutAsSimilar(v, sentence, ref, c, v.threshold) && Reports(v, sentence, c, m)
  }

  lemma MatchesOfRef(v: Verifier, sentence: string, ref: DocRef, chunks: seq<ContextChunk>, m: MatchedChunk)
    ensures m in MatchesOfChunks(v, sentence, ref, ChunksOf(chunks, ref.docId))
       <==> exists c :: c in chunks && ReportsPair(v, sentence, ref, c, m)
  {
    MatchesOfDocument(v, sentence, ref, ChunksOf(chunks, ref.docId), m);
    forall c
      ensures c in ChunksOf(chunks, ref.docId) <==> c in chunks && c.documentId == ref.docId
      ensures Reports(v, sentence, c, m) <==> m == ToMatch(v, sentence, c)
    {
      ChunksOfElements(chunks, ref.docId, c);
      ReportsIff(v, sentence, c, m);
    }
  }

  /** The matched chunks of a citation are exactly those of the documents it names that reach the
      threshold, whatever their pages are, each with the start of its text and its similarity. */
  lemma {:induction false} MatchesAreSimilar(v: Verifier, sentence: string, refs: seq<DocRef>, chunks: seq<ContextChunk>, m: MatchedChunk)
    ensures m in MatchesOfRefs(v, sentence, refs, chunks)
       <==> exists r, c :: r in refs && c in chunks && ReportsPair(v, sentence, r, c, m)
  {
    if refs != [] {
      MatchesOfRef(v, sentence, refs[0], chunks, m);
      MatchesAreSimilar(v, sentence, refs[1..], chunks, m);
      assert forall r :: r in refs <==> r == refs[0] || r in refs[1..];
    }
  }

  /** The matches of one reference read off the chunks as they are listed. */
  function Expected(v: Verifier, sentence: string, ref: DocRef, chunks: seq<ContextChunk>): seq<MatchedChunk> {
    if chunks == [] then []
    else
      var before, last := Expected(v, sentence, ref, chunks[..|chunks| - 1]), chunks[|chunks| - 1];
      if AboutAsSimilar(v, sentence, ref, last, v.threshold) then before + [ToMatch(v, sentence, last)] else before
  }

  lemma {:induction false} MatchesSnoc(v: Verifier, sentence: string, ref: DocRef, docChunks: seq<ContextChunk>, c: ContextChunk)
    ensures MatchesOfChunks(v, sentence, ref, docChunks + [c]) ==
              MatchesOfChunks(v, sentence, ref, docChunks) +
              if v.similarity(sentence, c.content) >= v.threshold then [ToMatch(v, sentence, c)] else []
  {
    if docChunks == [] {
      assert docChunks + [c] == [c];
    } else {
      assert (docChunks + [c])[0] == docChunks[0] && (docChunks + [c])[1..] == docChunks[1..] + [c];
      MatchesSnoc(v, sentence, ref, docChunks[1..], c);
    }
  }

  /** The matched chunks of a reference come in the order in which the chunks are listed, repeats
      included. */
  lemma {:induction false} MatchesInOrder(v: Verifier, sentence: string, ref: DocRef, chunks: seq<ContextChunk>)
    ensures MatchesOfChunks(v, sentence, ref, ChunksOf(chunks, ref.docId)) == Expected(v, sentence, ref, chunks)
  {
    if chunks != [] {
      var front, last := chunks[..|chunks| - 1], chunks[|chunks| - 1];
      MatchesInOrder(v, sentence, ref, front);
      MatchesSnoc(v, sentence, ref, ChunksOf(front, ref.docId), last);
    }
  }

  /** The ids of citations identify what they cite: two marks that parse get the same id exactly when they
      have the same references and are both certain or both not. */
  lemma IdIdentifiesRefs(v: Verifier, a: string, b: string, s: string, i: nat, t: string, j: nat, chunks: seq<ContextChunk>)
    requires Parse(a).parseError.None? && Parse(b).parseError.None?
    ensures Verified(v, Parse(a), s, i, chunks).refId == Verified(v, Parse(b), t, j, chunks).refId
       <==> Parse(a).docRefs == Parse(b).docRefs && Parse(a).isUncertain == Parse(b).isUncertain
  {
    RoundTrip(a);
    RoundTrip(b);
  }

  /** The confidence does not depend on the order of the chunks, or on repeats. */
  lemma OrderIsIrrelevant(v: Verifier, ref: CitationRef, sentence: string, index: nat, chunks: seq<ContextChunk>, others: seq<ContextChunk>)
    requires forall c :: c in chunks <==> c in others
    ensures Verified(v, ref, sentence, index, chunks).confidence == Verified(v, ref, sentence, index, others).confidence
  {
    if !ref.isUncertain {
      ConfidenceIsBestPair(v, ref, sentence, index, chunks);
      ConfidenceIsBestPair(v, ref, sentence, index, others);
      assert forall level :: Reaches(v, sentence, ref.docRefs, chunks, level) <==> Reaches(v, sentence, ref.docRefs, others, level);
    }
  }

  /** A stricter threshold never raises a confidence, and more chunks never lower it. */
  lemma ConfidenceIsMonotone(v: Verifier, threshold: real, ref: CitationRef, sentence: string, index: nat,
                             chunks: seq<ContextChunk>, more: seq<ContextChunk>)
    requires threshold >= v.threshold
    requires forall c :: c in chunks ==> c in more
    ensures Verified(v.(threshold := threshold), ref, sentence, index, chunks).confidence.Rank()
         <= Verified(v, ref, sentence, index, more).confidence.Rank()
  {
    var stricter := v.(threshold := threshold);
    BestIsMaximum(stricter, sentence, ref.docRefs, chunks);
    BestIsMaximum(v, sentence, ref.docRefs, more);
    var best := BestOfRefs(stricter, sentence, ref.docRefs, chunks);
    if best != Uncertain {
      var r, c :| r in ref.docRefs && c in chunks && Supports(stricter, sentence, r, c, best);
      assert best.Rank() <= Support(v, sentence, r, c).Rank();
    }
  }

  lemma {:induction false} MatchesOfChunksIff(v: Verifier, sentence: string, ref: DocRef, docChunks: seq<ContextChunk>)
    ensures MatchesOfChunks(v, sentence, ref, docChunks) != [] <==> BestOfChunks(v, sentence, ref, docChunks) != Uncertain
  {
    if docChunks != [] {
      MatchesOfChunksIff(v, sentence, ref, docChunks[1..]);
    }
  }

  lemma {:induction false} MatchesOfRefsIff(v: Verifier, sentence: string, refs: seq<DocRef>, chunks: seq<ContextChunk>)
    ensures MatchesOfRefs(v, sentence, refs, chunks) != [] <==> BestOfRefs(v, sentence, refs, chunks) != Uncertain
  {
    if refs != [] {
      MatchesOfChunksIff(v, sentence, refs[0], ChunksOf(chunks, refs[0].docId));
      MatchesOfRefsIff(v, sentence, refs[1..], chunks);
    }
  }

  /** A citation has matched chunks exactly when it is not uncertain. */
  lemma MatchedIffNotUncertain(v: Verifier, ref: CitationRef, sentence: string, index: nat, chunks: seq<ContextChunk>)
    ensures var c := Verified(v, ref, sentence, index, chunks);
            c.matchedChunks != [] <==> c.confidence != Uncertain
  {
    MatchesOfRefsIff(v, sentence, ref.docRefs, chunks);
  }

  // ----- All citations -----

  datatype Summary = Summary(total: nat, direct: nat, fuzzy: nat, uncertain: nat)

  function VerifiedOf(v: Verifier, refs: seq<CitationRef>, sentence: string, index: nat, chunks: seq<ContextChunk>): seq<VerifiedCitation> {
    if refs == [] then []
    else [Verified(v, refs[0], sentence, index, chunks)] + VerifiedOf(v, refs[1..], sentence, index, chunks)
  }

  function AllVerified(v: Verifier, sentences: seq<SentenceCitation>, chunks: seq<ContextChunk>): seq<VerifiedCitation> {
    if sentences == [] then []
    else
      VerifiedOf(v, sentences[0].citations, sentences[0].sentence, sentences[0].index, chunks) + AllVerified(v, sentences[1..], chunks)
  }

  function CountOf(citations: seq<VerifiedCitation>, level: Confidence): nat {
    if citations == [] then 0 else (if citations[0].confidence == level then 1 else 0) + CountOf(citations[1..], level)
  }

  lemma {:induction false} CountsAddUp(citations: seq<VerifiedCitation>)
    ensures CountOf(citations, Direct) + CountOf(citations, Fuzzy) + CountOf(citations, Uncertain) == |citations|
  {
    if citations != [] {
      CountsAddUp(citations[1..]);
    }
  }

  method VerifySentence(v: Verifier, sent: SentenceCitation, index: map<string, seq<ContextChunk>>, ghost chunks: seq<ContextChunk>)
      returns (verified: seq<VerifiedCitation>)
    requires IsIndex(index, chunks)
    ensures verified == VerifiedOf(v, sent.citations, sent.sentence, sent.index, chunks)
  {
    verified := [];
    ghost var expected := VerifiedOf(v, sent.citations, sent.sentence, sent.index, chunks);
    for i := 0 to |sent.citations|
      invariant Remains(expected, verified, VerifiedOf(v, sent.citations[i..], sent.sentence, sent.index, chunks))
    {
      assert sent.citations[i..][1..] == sent.citations[i + 1..];
      var citation := VerifySingle(v, sent.citations[i], sent.sentence, sent.index, index, chunks);
      Advance(expected, verified, [citation], VerifiedOf(v, sent.citations[i + 1..], sent.sentence, sent.index, chunks));
      verified := verified + [citation];
    }
    NothingRemains(expected, verified);
  }

  method Verify(v: Verifier, sentences: seq<SentenceCitation>, chunks: seq<ContextChunk>)
      returns (citations: seq<VerifiedCitation>, summary: Summary)
    ensures citations == AllVerified(v, sentences, chunks)
    ensures summary == Summary(|citations|, CountOf(citations, Direct), CountOf(citations, Fuzzy), CountOf(citations, Uncertain))
    ensures summary.direct + summary.fuzzy + summary.uncertain == summary.total
  {
    var index := BuildChunkIndex(chunks);
    citations := [];
    ghost var expected := AllVerified(v, sentences, chunks);
    for i := 0 to |sentences|
      invariant Remains(expected, citations, AllVerified(v, sentences[i..], chunks))
    {
      assert sentences[i..][1..] == sentences[i + 1..];
      var verified := VerifySentence(v, sentences[i], index, chunks);
      Advance(expected, citations, verified, AllVerified(v, sentences[i + 1..], chunks));
      citations := citations + verified;
    }
    NothingRemains(expected, citations);
    CountsAddUp(citations);
    summary := Summary(|citations|, CountOf(citations, Direct), CountOf(citations, Fuzzy), CountOf(citations, Uncertain));
  }

  // ----- Which result belongs to which mark -----

  /** A mark with the sentence it was found in. */
  datatype FoundMark = FoundMark(index: nat, sentence: string, mark: string)

  function FoundIn(index: nat, sentence: string, marks: seq<string>): seq<FoundMark> {
    if marks == [] then [] else [FoundMark(index, sentence, marks[0])] + FoundIn(index, sentence, marks[1..])
  }

  /** The marks of all sentences in order. */
  function AllFound(sentences: seq<string>, index: nat): seq<FoundMark> {
    if sentences == [] then [] else FoundIn(index, sentences[0], FindMarks(sentences[0])) + AllFound(sentences[1..], index + 1)
  }

  function MarksOf(found: seq<FoundMark>): seq<string> {
    if found == [] then [] else [found[0].mark] + MarksOf(found[1..])
  }

  /** The marks that parse, each verified in its own sentence. */
  function VerifiedFound(v: Verifier, found: seq<FoundMark>, chunks: seq<ContextChunk>): seq<VerifiedCitation> {
    if found == [] then []
    else
      var ref, rest := Parse(found[0].mark), VerifiedFound(v, found[1..], chunks);
      if ref.parseError.None? then [Verified(v, ref, found[0].sentence, found[0].index, chunks)] + rest else rest
  }

  /** The errors of the marks that do not parse. */
  function IssuesFound(found: seq<FoundMark>): seq<ParseIssue> {
    if found == [] then []
    else
      var ref, rest := Parse(found[0].mark), IssuesFound(found[1..]);
      if ref.parseError.None? then rest
      else [ParseIssue(found[0].index, Slice(found[0].sentence, 0, 100), ref.parseError.value)] + rest
  }

  lemma ConcatRest(a: seq<FoundMark>, b: seq<FoundMark>)
    requires a != []
    ensures (a + b)[0] == a[0] && (a + b)[1..] == a[1..] + b
  {
  }

  lemma {:induction false} VerifiedFoundConcat(v: Verifier, a: seq<FoundMark>, b: seq<FoundMark>, chunks: seq<ContextChunk>)
    ensures VerifiedFound(v, a + b, chunks) == VerifiedFound(v, a, chunks) + VerifiedFound(v, b, chunks)
  {
    if a == [] {
      assert a + b == b;
    } else {
      ConcatRest(a, b);
      VerifiedFoundConcat(v, a[1..], b, chunks);
    }
  }

  lemma {:induction false} IssuesFoundConcat(a: seq<FoundMark>, b: seq<FoundMark>)
    ensures IssuesFound(a + b) == IssuesFound(a) + IssuesFound(b)
  {
    if a == [] {
      assert a + b == b;
    } else {
      ConcatRest(a, b);
      IssuesFoundConcat(a[1..], b);
    }
  }

  lemma {:induction false} MarksOfConcat(a: seq<FoundMark>, b: seq<FoundMark>)
    ensures MarksOf(a + b) == MarksOf(a) + MarksOf(b)
  {
    if a == [] {
      assert a + b == b;
    } else {
      assert (a + b)[1..] == a[1..] + b;
      MarksOfConcat(a[1..], b);
    }
  }

  lemma FoundRest(index: nat, sentence: string, marks: seq<string>)
    requires marks != []
    ensures var found := FoundIn(index, sentence, marks);
            found[0] == FoundMark(index, sentence, marks[0]) && found[1..] == FoundIn(index, sentence, marks[1..])
  {
  }

  lemma {:induction false} MarksOfFound(index: nat, sentence: string, marks: seq<string>)
    ensures MarksOf(FoundIn(index, sentence, marks)) == marks
  {
    if marks != [] {
      MarksOfFound(index, sentence, marks[1..]);
      FoundRest(index, sentence, marks);
      assert [marks[0]] + marks[1..] == marks;
    }
  }

  lemma {:induction false} VerifiedInSentence(v: Verifier, index: nat, sentence: string, marks: seq<string>, chunks: seq<ContextChunk>)
    ensures VerifiedFound(v, FoundIn(index, sentence, marks), chunks) == VerifiedOf(v, Accepted(marks), sentence, index, chunks)
  {
    if marks != [] {
      VerifiedInSentence(v, index, sentence, marks[1..], chunks);
      FoundRest(index, sentence, marks);
      AcceptedFirst(v, sentence, index, marks, chunks);
    }
  }

  lemma AcceptedFirst(v: Verifier, sentence: string, index: nat, marks: seq<string>, chunks: seq<ContextChunk>)
    requires marks != []
    ensures VerifiedOf(v, Accepted(marks), sentence, index, chunks) ==
              var ref, rest := Parse(marks[0]), VerifiedOf(v, Accepted(marks[1..]), sentence, index, chunks);
              if ref.parseError.None? then [Verified(v, ref, sentence, index, chunks)] + rest else rest
  {
  }

  lemma {:induction false} IssuesInSentence(index: nat, sentence: string, marks: seq<string>)
    ensures IssuesFound(FoundIn(index, sentence, marks)) == Issues(index, sentence, marks)
  {
    if marks != [] {
      IssuesInSentence(index, sentence, marks[1..]);
      FoundRest(index, sentence, marks);
    }
  }

  /** What the parser makes of sentence i, the first of them having the given number. */
  predicate ParsedAt(parsed: seq<SentenceCitation>, sentences: seq<string>, index: nat, i: nat)
    requires i < |parsed| == |sentences|
  {
    parsed[i] == SentenceCitation(sentences[i], index + i, Accepted(FindMarks(sentences[i])))
  }

  ghost predicate ParsedFrom(parsed: seq<SentenceCitation>, sentences: seq<string>, index: nat) {
    |parsed| == |sentences| && forall i: nat :: i < |sentences| ==> ParsedAt(parsed, sentences, index, i)
  }

  lemma ParsedRest(parsed: seq<SentenceCitation>, sentences: seq<string>, index: nat)
    requires ParsedFrom(parsed, sentences, index) && sentences != []
    ensures parsed[0] == SentenceCitation(sentences[0], index, Accepted(FindMarks(sentences[0])))
    ensures ParsedFrom(parsed[1..], sentences[1..], index + 1)
  {
    assert ParsedAt(parsed, sentences, index, 0);
    var later, rest, next := parsed[1..], sentences[1..], index + 1;
    forall i: nat | i < |rest|
      ensures ParsedAt(later, rest, next, i)
    {
      assert ParsedAt(parsed, sentences, index, i + 1);
    }
  }

  lemma {:induction false} MarksOfAll(sentences: seq<string>, index: nat)
    ensures MarksOf(AllFound(sentences, index)) == MarksIn(sentences)
  {
    if sentences != [] {
      var marks := FindMarks(sentences[0]);
      MarksOfAll(sentences[1..], index + 1);
      MarksOfFound(index, sentences[0], marks);
      MarksOfConcat(FoundIn(index, sentences[0], marks), AllFound(sentences[1..], index + 1));
    }
  }

  lemma {:induction false} IssuesOfAll(sentences: seq<string>, index: nat)
    ensures IssuesFound(AllFound(sentences, index)) == AllIssues(sentences, index)
  {
    if sentences != [] {
      var marks := FindMarks(sentences[0]);
      IssuesOfAll(sentences[1..], index + 1);
      IssuesInSentence(index, sentences[0], marks);
      IssuesFoundConcat(FoundIn(index, sentences[0], marks), AllFound(sentences[1..], index + 1));
    }
  }

  lemma {:induction false} VerifiedOfAll(v: Verifier, parsed: seq<SentenceCitation>, sentences: seq<string>, index: nat, chunks: seq<ContextChunk>)
    requires ParsedFrom(parsed, sentences, index)
    ensures VerifiedFound(v, AllFound(sentences, index), chunks) == AllVerified(v, parsed, chunks)
  {
    if sentences != [] {
      var marks := FindMarks(sentences[0]);
      ParsedRest(parsed, sentences, index);
      VerifiedOfAll(v, parsed[1..], sentences[1..], index + 1, chunks);
      VerifiedInSentence(v, index, sentences[0], marks, chunks);
      VerifiedFoundConcat(v, FoundIn(index, sentences[0], marks), AllFound(sentences[1..], index + 1), chunks);
    }
  }

  lemma VerifiedByMark(v: Verifier, parsed: seq<SentenceCitation>, sentences: seq<string>, index: nat, chunks: seq<ContextChunk>)
    requires ParsedFrom(parsed, sentences, index)
    ensures var found := AllFound(sentences, index);
            && MarksOf(found) == MarksIn(sentences)
            && AllVerified(v, parsed, chunks) == VerifiedFound(v, found, chunks)
            && AllIssues(sentences, index) == IssuesFound(found)
  {
    MarksOfAll(sentences, index);
    VerifiedOfAll(v, parsed, sentences, index, chunks);
    IssuesOfAll(sentences, index);
  }

  lemma {:induction false} EachComesOutOnce(v: Verifier, found: seq<FoundMark>, chunks: seq<ContextChunk>)
    ensures |VerifiedFound(v, found, chunks)| + |IssuesFound(found)| == |found|
  {
    if found != [] {
      EachComesOutOnce(v, found[1..], chunks);
    }
  }

  lemma SplitAtMark(found: seq<FoundMark>, k: nat)
    requires k < |found|
    ensures found == found[..k] + found[k..] && found[k..][0] == found[k]
  {
  }

  /** A mark that parses comes out verified, right after the earlier marks that parse. */
  lemma VerifiedAt(v: Verifier, found: seq<FoundMark>, k: nat, chunks: seq<ContextChunk>)
    requires k < |found| && Parse(found[k].mark).parseError.None?
    ensures var f, p, verified := found[k], |VerifiedFound(v, found[..k], chunks)|, VerifiedFound(v, found, chunks);
            p < |verified| && verified[p] == Verified(v, Parse(f.mark), f.sentence, f.index, chunks)
  {
    SplitAtMark(found, k);
    VerifiedFoundConcat(v, found[..k], found[k..], chunks);
  }

  /** A mark that does not parse comes out as an error, right after the earlier errors. */
  lemma IssueAt(found: seq<FoundMark>, k: nat)
    requires k < |found| && Parse(found[k].mark).parseError.Some?
    ensures var f, q, issues := found[k], |IssuesFound(found[..k])|, IssuesFound(found);
            q < |issues| && issues[q] == ParseIssue(f.index, Slice(f.sentence, 0, 100), Parse(f.mark).parseError.value)
  {
    SplitAtMark(found, k);
    IssuesFoundConcat(found[..k], found[k..]);
  }

  /** Each mark comes out once and at its own place. */
  lemma MarkComesOutAt(v: Verifier, found: seq<FoundMark>, k: nat, chunks: seq<ContextChunk>)
    requires k < |found|
    ensures var f, ref := found[k], Parse(found[k].mark);
            var verified, issues := VerifiedFound(v, found, chunks), IssuesFound(found);
            var p, q := |VerifiedFound(v, found[..k], chunks)|, |IssuesFound(found[..k])|;
            && |verified| + |issues| == |found| && p + q == k
            && (if ref.parseError.None? then p < |verified| && verified[p] == Verified(v, ref, f.sentence, f.index, chunks)
                else q < |issues| && issues[q] == ParseIssue(f.index, Slice(f.sentence, 0, 100), ref.parseError.value))
  {
    EachComesOutOnce(v, found, chunks);
    EachComesOutOnce(v, found[..k], chunks);
    if Parse(found[k].mark).parseError.None? {
      VerifiedAt(v, found, k, chunks);
    } else {
      IssueAt(found, k);
    }
  }

  /** The request handler's two calls: the text is parsed and its citations are verified. The marks
      of the sentences in order come out as verified citations or as errors, and they are the
      marks of the text itself when none of those has a sentence end inside its brackets. */
  method VerifyCitations(v: Verifier, text: string, chunks: seq<ContextChunk>)
      returns (citations: seq<VerifiedCitation>, summary: Summary, errors: seq<ParseIssue>)
    ensures var found := AllFound(Sentences(text, v.isDigit), 0);
            && citations == VerifiedFound(v, found, chunks)
            && errors == IssuesFound(found)
            && MarksOf(found) == MarksIn(Sentences(text, v.isDigit))
            && (!v.isDigit(':') && NoneCut(FindMarks(text), v.isDigit) ==> MarksOf(found) == FindMarks(text))
    ensures summary == Summary(|citations|, CountOf(citations, Direct), CountOf(citations, Fuzzy), CountOf(citations, Uncertain))
    ensures summary.direct + summary.fuzzy + summary.uncertain == summary.total
  {
    var parsed := ParseText(text, v.isDigit);
    citations, summary := Verify(v, parsed.sentences, chunks);
    errors := parsed.parseErrors;
    VerifiedByMark(v, parsed.sentences, Sentences(text, v.isDigit), 0, chunks);
    if !v.isDigit(':') {
      MarksSurviveIff(text, v.isDigit);
    }
  }
}
