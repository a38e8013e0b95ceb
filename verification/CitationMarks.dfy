/** Citation marks [ref:...]: finding them in text, parsing them, and printing them as
    reference ids. */
module CitationMarks {
  import opened Options
  import opened Text

  datatype DocRef = DocRef(docId: string, pageRange: string)

  datatype MarkError = Malformed(part: string) | EmptyField(part: string) | NoRefs

  datatype CitationRef =
    CitationRef(rawMark: string, isUncertain: bool, docRefs: seq<DocRef>, parseError: Option<MarkError>)

  /** lower() on the letters that matter: no other character lowers to a letter of "uncertain". */
  function Lower(c: char): char {
    if 'A' <= c <= 'Z' then c - 'A' + 'a' else c
  }

  predicate SaysUncertain(s: string) {
    && |s| == 9
    && Lower(s[0]) == 'u' && Lower(s[1]) == 'n' && Lower(s[2]) == 'c'
    && Lower(s[3]) == 'e' && Lower(s[4]) == 'r' && Lower(s[5]) == 't'
    && Lower(s[6]) == 'a' && Lower(s[7]) == 'i' && Lower(s[8]) == 'n'
  }

  /** The index of the first c in s, or |s|. */
  function Find(s: string, c: char): (i: nat)
    ensures i <= |s| && (i < |s| ==> s[i] == c)
    ensures forall j :: 0 <= j < i ==> s[j] != c
  {
    if s == "" || s[0] == c then 0 else Find(s[1..], c) + 1
  }

  /** The pattern ^([^:]+):(.+)$ on a stripped part: a colon that is not first, and then
      something that stays on one line. */
  predicate HasShape(part: string) {
    var colon := Find(part, ':');
    0 < colon < |part| - 1 && '\n' !in part[colon + 1..]
  }

  datatype PartResult = Good(ref: DocRef) | Bad(error: MarkError)

  function ParsePart(part: string): PartResult {
    if !HasShape(part) then Bad(Malformed(part))
    else
      var colon := Find(part, ':');
      var docId, pageRange := Strip(part[..colon]), Strip(part[colon + 1..]);
      if docId == "" || pageRange == "" then Bad(EmptyField(part)) else Good(DocRef(docId, pageRange))
  }

  /** The references of the parts up to the first bad one, and its error. */
  function ParseParts(parts: seq<string>): (seq<DocRef>, Option<MarkError>) {
    if parts == [] then ([], None)
    else if Strip(parts[0]) == "" then ParseParts(parts[1..])
    else
      match ParsePart(Strip(parts[0]))
      case Bad(error) => ([], Some(error))
      case Good(ref) =>
        var (refs, error) := ParseParts(parts[1..]);
        ([ref] + refs, error)
  }

  function Parse(mark: string): CitationRef {
    var raw := Strip(mark);
    if SaysUncertain(raw) then CitationRef(raw, true, [], None)
    else
      var (refs, error) := ParseParts(SplitOn("|", raw));
      CitationRef(raw, false, refs, if error.None? && refs == [] then Some(NoRefs) else error)
  }

  method ParseRefMark(mark: string) returns (ref: CitationRef)
    ensures ref == Parse(mark)
  {
    ref := CitationRef(Strip(mark), false, [], None);
    if SaysUncertain(ref.rawMark) {
      ref := ref.(isUncertain := true);
      return;
    }
    var parts := SplitOn("|", ref.rawMark);
    ghost var (refs, error) := ParseParts(parts);
    for i := 0 to |parts|
      invariant ref == CitationRef(Strip(mark), false, ref.docRefs, None)
      invariant Remains(refs, ref.docRefs, ParseParts(parts[i..]).0)
      invariant error == ParseParts(parts[i..]).1
    {
      assert parts[i..][1..] == parts[i + 1..];
      var part := Strip(parts[i]);
      if part == "" {
        continue;
      }
      var colon := Find(part, ':');
      if !HasShape(part) {
        ref := ref.(parseError := Some(Malformed(part)));
        NothingRemains(refs, ref.docRefs);
        return;
      }
      var docId, pageRange := Strip(part[..colon]), Strip(part[colon + 1..]);
      if docId == "" || pageRange == "" {
        ref := ref.(parseError := Some(EmptyField(part)));
        NothingRemains(refs, ref.docRefs);
        return;
      }
      Advance(refs, ref.docRefs, [DocRef(docId, pageRange)], ParseParts(parts[i + 1..]).0);
      ref := ref.(docRefs := ref.docRefs + [DocRef(docId, pageRange)]);
    }
    NothingRemains(refs, ref.docRefs);
    if ref.docRefs == [] && !ref.isUncertain {
      ref := ref.(parseError := Some(NoRefs));
    }
  }

  // ----- Which marks parse -----

  lemma StripKeeps(s: string, c: char)
    ensures c in Strip(s) ==> c in s
    ensures c in s && !IsSpace(c) ==> c in Strip(s)
  {
    var a, b := StripParts(s);
  }

  lemma StripOfEnds(s: string)
    requires s != ""
    ensures !IsSpace(s[0]) || !IsSpace(s[|s| - 1]) ==> Strip(s) != ""
  {
    VisibleStrip(s);
  }

  /** A part of the right shape has both fields: the check for empty ones never fires. */
  lemma ShapeIsEnough(part: string)
    requires Stripped(part)
    ensures ParsePart(part).Good? <==> HasShape(part)
  {
    if HasShape(part) {
      var colon := Find(part, ':');
      StripOfEnds(part[..colon]);
      StripOfEnds(part[colon + 1..]);
    }
  }

  predicate IsBlank(part: string) {
    Strip(part) == ""
  }

  predicate IsShaped(part: string) {
    IsBlank(part) || HasShape(Strip(part))
  }

  /** The parts that are not blank all have the right shape. */
  ghost predicate AllShaped(parts: seq<string>) {
    forall part :: part in parts ==> IsShaped(part)
  }

  ghost predicate AllBlank(parts: seq<string>) {
    forall part :: part in parts ==> IsBlank(part)
  }

  lemma FirstAndRest(parts: seq<string>)
    requires parts != []
    ensures AllShaped(parts) <==> IsShaped(parts[0]) && AllShaped(parts[1..])
    ensures AllBlank(parts) <==> IsBlank(parts[0]) && AllBlank(parts[1..])
  {
    assert forall part :: part in parts <==> part == parts[0] || part in parts[1..];
  }

  lemma PartParses(part: string)
    requires !IsBlank(part)
    ensures ParsePart(Strip(part)).Good? <==> IsShaped(part)
    ensures ParsePart(Strip(part)).Bad? ==> ParsePart(Strip(part)).error.Malformed?
  {
    var a, b := StripParts(part);
    ShapeIsEnough(Strip(part));
  }

  lemma {:induction false} PartsParse(parts: seq<string>)
    ensures ParseParts(parts).1.None? <==> AllShaped(parts)
    ensures ParseParts(parts).1.Some? ==> ParseParts(parts).1.value.Malformed?
    ensures AllShaped(parts) ==> (ParseParts(parts).0 == [] <==> AllBlank(parts))
  {
    if parts != [] {
      PartsParse(parts[1..]);
      FirstAndRest(parts);
      if !IsBlank(parts[0]) {
        PartParses(parts[0]);
      }
    }
  }

  /** A mark parses exactly when it says uncertain, or has a part that is not blank and all
      such parts are id:pages. The error for an empty field is never reported. */
  lemma ParsesIff(mark: string)
    ensures var parts := SplitOn("|", Strip(mark));
            Parse(mark).parseError.None?
            <==> SaysUncertain(Strip(mark)) || (AllShaped(parts) && !AllBlank(parts))
    ensures Parse(mark).parseError.Some? ==> !Parse(mark).parseError.value.EmptyField?
  {
    PartsParse(SplitOn("|", Strip(mark)));
  }

  // ----- Printing -----

  function PrintRef(ref: DocRef): string {
    ref.docId + ":" + ref.pageRange
  }

  function PrintRefs(refs: seq<DocRef>): (r: seq<string>)
    ensures |r| == |refs|
    ensures forall i :: 0 <= i < |refs| ==> r[i] == PrintRef(refs[i])
  {
    seq(|refs|, i requires 0 <= i < |refs| => PrintRef(refs[i]))
  }

  /** The ref_id of a citation, as the verifier builds it. */
  function Print(ref: CitationRef): string {
    if ref.isUncertain then "uncertain"
    else if ref.docRefs != [] then Join("|", PrintRefs(ref.docRefs))
    else ref.rawMark
  }

  /** The references that a mark can spell. */
  predicate WellFormed(ref: DocRef) {
    && ref.docId != "" && Stripped(ref.docId) && ':' !in ref.docId && '|' !in ref.docId
    && ref.pageRange != "" && Stripped(ref.pageRange) && '\n' !in ref.pageRange && '|' !in ref.pageRange
  }

  lemma FindInPrinted(ref: DocRef)
    requires WellFormed(ref)
    ensures Find(PrintRef(ref), ':') == |ref.docId|
  {
    var s := PrintRef(ref);
    assert s[|ref.docId|] == ':';
    assert forall j :: 0 <= j < |ref.docId| ==> s[j] == ref.docId[j];
  }

  lemma PrintedIsStripped(ref: DocRef)
    requires WellFormed(ref)
    ensures var part := PrintRef(ref);
            part != "" && Stripped(part) && '|' !in part
  {
    var part := PrintRef(ref);
    assert part[0] == ref.docId[0] && part[|part| - 1] == ref.pageRange[|ref.pageRange| - 1];
  }

  lemma StrippedStays(s: string)
    requires Stripped(s)
    ensures Strip(s) == s
  {
  }

  lemma PrintedPartParses(ref: DocRef)
    requires WellFormed(ref)
    ensures var part := PrintRef(ref);
            Stripped(part) && '|' !in part && Strip(part) == part != "" && ParsePart(part) == Good(ref)
  {
    var part, colon := PrintRef(ref), |ref.docId|;
    FindInPrinted(ref);
    PrintedIsStripped(ref);
    StrippedStays(part);
    StrippedStays(ref.docId);
    StrippedStays(ref.pageRange);
    assert part[..colon] == ref.docId && part[colon + 1..] == ref.pageRange;
  }

  lemma {:induction false} PrintedPartsParse(refs: seq<DocRef>)
    requires forall i :: 0 <= i < |refs| ==> WellFormed(refs[i])
    ensures ParseParts(PrintRefs(refs)) == (refs, None)
  {
    if refs != [] {
      PrintedPartsParse(refs[1..]);
      PrintedPartParses(refs[0]);
      assert PrintRefs(refs)[1..] == PrintRefs(refs[1..]);
      FirstPartParses(PrintRefs(refs), refs[0]);
      assert [refs[0]] + refs[1..] == refs;
    }
  }

  lemma FirstPartParses(parts: seq<string>, ref: DocRef)
    requires parts != [] && Strip(parts[0]) != "" && ParsePart(Strip(parts[0])) == Good(ref)
    ensures ParseParts(parts) == ([ref] + ParseParts(parts[1..]).0, ParseParts(parts[1..]).1)
  {
  }

  lemma {:induction false} SplitAlone(s: string)
    requires '|' !in s
    ensures SplitOn("|", s) == [s]
  {
    if s != "" {
      assert s[0] in s && s[..1] == [s[0]];
      SplitAlone(s[1..]);
      assert [s[0]] + s[1..] == s;
      assert PutFirst(s[0], [s[1..]]) == [s];
    }
  }

  lemma {:induction false} SplitFirst(s: string, rest: string)
    requires '|' !in s
    ensures SplitOn("|", s + "|" + rest) == [s] + SplitOn("|", rest)
  {
    var all := s + "|" + rest;
    assert all[0] == if s == "" then '|' else s[0];
    assert all[..1] == [all[0]];
    if s == "" {
      assert all[1..] == rest;
    } else {
      assert s[0] in s;
      assert all[1..] == s[1..] + "|" + rest;
      SplitFirst(s[1..], rest);
      assert [s[0]] + s[1..] == s;
      assert PutFirst(s[0], [s[1..]] + SplitOn("|", rest)) == [s] + SplitOn("|", rest);
    }
  }

  lemma {:induction false} SplitOfJoin(parts: seq<string>)
    requires parts != [] && forall i :: 0 <= i < |parts| ==> '|' !in parts[i]
    ensures SplitOn("|", Join("|", parts)) == parts
  {
    if |parts| == 1 {
      SplitAlone(parts[0]);
    } else {
      SplitOfJoin(parts[1..]);
      SplitFirst(parts[0], Join("|", parts[1..]));
    }
  }

  lemma {:induction false} JoinEnds(parts: seq<string>)
    requires parts != [] && forall i :: 0 <= i < |parts| ==> parts[i] != "" && Stripped(parts[i])
    ensures Join("|", parts) != "" && Stripped(Join("|", parts))
    ensures ':' in parts[0] ==> ':' in Join("|", parts)
  {
    if |parts| > 1 {
      JoinEnds(parts[1..]);
      var all, rest := Join("|", parts), Join("|", parts[1..]);
      assert all[0] == parts[0][0] && all[|all| - 1] == rest[|rest| - 1];
    }
  }

  /** Printed references are read back as they were. */
  lemma PrintedMarkParses(refs: seq<DocRef>)
    requires refs != [] && forall i :: 0 <= i < |refs| ==> WellFormed(refs[i])
    ensures var printed := Join("|", PrintRefs(refs));
            Parse(printed) == CitationRef(printed, false, refs, None)
  {
    var parts := PrintRefs(refs);
    forall i | 0 <= i < |parts|
      ensures '|' !in parts[i] && parts[i] != "" && Stripped(parts[i])
    {
      PrintedPartParses(refs[i]);
    }
    SplitOfJoin(parts);
    JoinEnds(parts);
    assert parts[0][|refs[0].docId|] == ':';
    if SaysUncertain(Join("|", parts)) {
      assert false;
    }
    PrintedPartsParse(refs);
  }

  lemma {:induction false} PiecesHaveNoBar(s: string, k: nat)
    requires k < |SplitOn("|", s)|
    ensures '|' !in SplitOn("|", s)[k]
    decreases |s|
  {
    if s == "" {
    } else if StartsWith(s, "|") {
      if k > 0 {
        PiecesHaveNoBar(s[1..], k - 1);
      }
    } else {
      assert s[..1] == [s[0]];
      PiecesHaveNoBar(s[1..], k);
    }
  }

  lemma ParsedPartIsWellFormed(part: string)
    requires Stripped(part) && '|' !in part && ParsePart(part).Good?
    ensures WellFormed(ParsePart(part).ref)
  {
    var colon := Find(part, ':');
    var a, b := StripParts(part[..colon]);
    var c, d := StripParts(part[colon + 1..]);
    StripKeeps(part[..colon], ':');
    StripKeeps(part[..colon], '|');
    StripKeeps(part[colon + 1..], '\n');
    StripKeeps(part[colon + 1..], '|');
  }

  lemma {:induction false} ParsedAreWellFormed(parts: seq<string>, k: nat)
    requires forall i :: 0 <= i < |parts| ==> '|' !in parts[i]
    requires k < |ParseParts(parts).0|
    ensures WellFormed(ParseParts(parts).0[k])
  {
    if Strip(parts[0]) == "" {
      ParsedAreWellFormed(parts[1..], k);
    } else if k > 0 {
      ParsedAreWellFormed(parts[1..], k - 1);
    } else {
      var a, b := StripParts(parts[0]);
      StripKeeps(parts[0], '|');
      ParsedPartIsWellFormed(Strip(parts[0]));
    }
  }

  lemma RefsAreWellFormed(mark: string)
    ensures forall i :: 0 <= i < |Parse(mark).docRefs| ==> WellFormed(Parse(mark).docRefs[i])
  {
    var parts := SplitOn("|", Strip(mark));
    forall k | 0 <= k < |parts|
      ensures '|' !in parts[k]
    {
      PiecesHaveNoBar(Strip(mark), k);
    }
    forall i | 0 <= i < |Parse(mark).docRefs|
      ensures WellFormed(Parse(mark).docRefs[i])
    {
      ParsedAreWellFormed(parts, i);
    }
  }

  lemma PrintOf(mark: string)
    requires Parse(mark).parseError.None? && !Parse(mark).isUncertain
    ensures Parse(mark).docRefs != [] && Print(Parse(mark)) == Join("|", PrintRefs(Parse(mark).docRefs))
  {
  }

  /** Printing and parsing undo each other: a mark that parses is printed to a mark that parses
      to the same references and flag, and printing it again changes nothing. */
  lemma RoundTrip(mark: string)
    requires Parse(mark).parseError.None?
    ensures var again := Parse(Print(Parse(mark)));
            && again.parseError.None?
            && again.docRefs == Parse(mark).docRefs
            && again.isUncertain == Parse(mark).isUncertain
            && Print(again) == Print(Parse(mark))
  {
    if Parse(mark).isUncertain {
      assert Parse("uncertain").isUncertain;
    } else {
      PrintOf(mark);
      RefsAreWellFormed(mark);
      PrintedMarkParses(Parse(mark).docRefs);
    }
  }

  /** The lists of references that survive printing and parsing are exactly those whose fields
      are not empty, have no white space at the ends and avoid the separators. */
  lemma ReadsBackIff(refs: seq<DocRef>)
    ensures Parse(Join("|", PrintRefs(refs))).parseError.None? && Parse(Join("|", PrintRefs(refs))).docRefs == refs
       <==> refs != [] && forall i :: 0 <= i < |refs| ==> WellFormed(refs[i])
  {
    var printed := Join("|", PrintRefs(refs));
    if refs != [] && forall i :: 0 <= i < |refs| ==> WellFormed(refs[i]) {
      PrintedMarkParses(refs);
    } else if refs != [] {
      RefsAreWellFormed(printed);
    }
  }

  // ----- Marks in text -----

  const OPENING := 5 // |"[ref:"|

  predicate Opens(s: string) {
    |s| >= OPENING && s[0] == '[' && s[1] == 'r' && s[2] == 'e' && s[3] == 'f' && s[4] == ':'
  }

  /** What the pattern \[ref:([^\]]+)\] captures at the start of s. */
  function MarkAt(s: string): (mark: Option<string>)
    ensures mark.Some? ==> mark.value != "" && ']' !in mark.value && |mark.value| + OPENING < |s|
  {
    if !Opens(s) then None
    else
      var length := Find(s[OPENING..], ']');
      if length == 0 || length + OPENING == |s| then None else Some(s[OPENING..][..length])
  }

  /** findall: the captures of the matches from left to right, without overlap. */
  function FindMarks(s: string): seq<string>
    decreases |s|
  {
    if s == "" then []
    else
      match MarkAt(s)
      case None => FindMarks(s[1..])
      case Some(mark) => [mark] + FindMarks(s[OPENING + |mark| + 1..])
  }

  function Bracketed(mark: string): string {
    "[ref:" + mark + "]"
  }

  lemma {:induction false} FoundHaveNoBracket(s: string, k: nat)
    requires k < |FindMarks(s)|
    ensures FindMarks(s)[k] != "" && ']' !in FindMarks(s)[k]
    decreases |s|
  {
    match MarkAt(s)
    case None => FoundHaveNoBracket(s[1..], k);
    case Some(mark) =>
      if k > 0 {
        FoundHaveNoBracket(s[OPENING + |mark| + 1..], k - 1);
      }
  }

  lemma MarkAtBracketed(mark: string)
    requires mark != "" && ']' !in mark
    ensures MarkAt(Bracketed(mark)) == Some(mark)
  {
    var s := Bracketed(mark);
    assert s[OPENING..] == mark + "]";
    assert forall j :: 0 <= j < |mark| ==> (mark + "]")[j] == mark[j] != ']';
    assert (mark + "]")[|mark|] == ']';
    assert Find(s[OPENING..], ']') == |mark|;
    assert (mark + "]")[..|mark|] == mark;
  }

  lemma BracketedIsFound(mark: string)
    requires mark != "" && ']' !in mark
    ensures FindMarks(Bracketed(mark)) == [mark]
  {
    var s := Bracketed(mark);
    MarkAtBracketed(mark);
    assert FindMarks(s) == [mark] + FindMarks(s[OPENING + |mark| + 1..]);
    assert |s[OPENING + |mark| + 1..]| == 0;
  }

  /** A mark that is found stands in the text between its brackets. */
  lemma {:induction false} FoundStandsInText(s: string, k: nat) returns (pos: nat)
    requires k < |FindMarks(s)|
    ensures OccursAt(s, pos, Bracketed(FindMarks(s)[k]))
    decreases |s|
  {
    var n := if MarkAt(s).Some? then OPENING + |MarkAt(s).value| + 1 else 1;
    if MarkAt(s).Some? && k == 0 {
      pos := 0;
      FirstMarkStands(s);
    } else {
      var p := FoundStandsInText(s[n..], if MarkAt(s).Some? then k - 1 else k);
      pos := n + p;
      OccursLater(s, n, p, Bracketed(FindMarks(s)[k]));
    }
  }

  lemma FirstMarkStands(s: string)
    requires MarkAt(s).Some?
    ensures OccursAt(s, 0, Bracketed(MarkAt(s).value))
  {
    var mark := MarkAt(s).value;
    assert s[OPENING..][|mark|] == ']';
    forall k | 0 <= k < |Bracketed(mark)|
      ensures s[k] == Bracketed(mark)[k]
    {
      if OPENING <= k < OPENING + |mark| {
        assert s[k] == s[OPENING..][..|mark|][k - OPENING];
      }
    }
  }

  lemma OccursLater(s: string, n: nat, p: nat, sub: string)
    requires n <= |s| && OccursAt(s[n..], p, sub)
    ensures OccursAt(s, n + p, sub)
  {
    forall k | 0 <= k < |sub|
      ensures s[n + p + k] == sub[k]
    {
      assert s[n..][p + k] == sub[k];
    }
  }

  lemma {:induction false} JoinCharacters(parts: seq<string>, c: char)
    requires c in Join("|", parts) && c != '|'
    ensures exists i :: 0 <= i < |parts| && c in parts[i]
  {
    if |parts| > 1 && c !in parts[0] {
      JoinCharacters(parts[1..], c);
      var i :| 0 <= i < |parts[1..]| && c in parts[1..][i];
      assert c in parts[i + 1];
    }
  }

  lemma {:induction false} PiecesAreFromText(s: string, k: nat, c: char)
    requires k < |SplitOn("|", s)| && c in SplitOn("|", s)[k]
    ensures c in s
    decreases |s|
  {
    if StartsWith(s, "|") {
      PiecesAreFromText(s[1..], k - 1, c);
    } else if s != "" {
      if k > 0 || c != s[0] {
        PiecesAreFromText(s[1..], k, c);
      }
    }
  }

  lemma RefIsFromPart(part: string, c: char)
    requires ParsePart(Strip(part)).Good? && c in PrintRef(ParsePart(Strip(part)).ref) && c != ':'
    ensures c in part
  {
    var stripped := Strip(part);
    var colon := Find(stripped, ':');
    StripKeeps(stripped[..colon], c);
    StripKeeps(stripped[colon + 1..], c);
    StripKeeps(part, c);
  }

  lemma {:induction false} RefsAreFromParts(parts: seq<string>, ref: DocRef, c: char)
    requires ref in ParseParts(parts).0 && c in PrintRef(ref) && c != ':'
    ensures exists part :: part in parts && c in part
  {
    if !IsBlank(parts[0]) && ref == ParsePart(Strip(parts[0])).ref {
      RefIsFromPart(parts[0], c);
    } else {
      RefsAreFromParts(parts[1..], ref, c);
      var other :| other in parts[1..] && c in other;
      assert other in parts;
    }
  }

  /** Printing brings no character that is not in the mark but the separators. */
  lemma PrintedCharacters(mark: string, c: char)
    requires Parse(mark).parseError.None? && !Parse(mark).isUncertain
    requires c in Print(Parse(mark)) && c != ':' && c != '|'
    ensures c in mark
  {
    var refs, parts := Parse(mark).docRefs, SplitOn("|", Strip(mark));
    JoinCharacters(PrintRefs(refs), c);
    var i :| 0 <= i < |refs| && c in PrintRefs(refs)[i];
    RefsAreFromParts(parts, refs[i], c);
    var part :| part in parts && c in part;
    var k :| 0 <= k < |parts| && parts[k] == part;
    PiecesAreFromText(Strip(mark), k, c);
    StripKeeps(mark, c);
  }

  /** The round trip in text: a mark found in a sentence that parses can be written back in its
      printed form, and is then found again and parses to the same references. */
  lemma {:induction false} RoundTripInText(sentence: string, k: nat)
    requires k < |FindMarks(sentence)| && Parse(FindMarks(sentence)[k]).parseError.None?
    ensures var ref := Parse(FindMarks(sentence)[k]);
            && FindMarks(Bracketed(Print(ref))) == [Print(ref)]
            && Parse(Print(ref)).docRefs == ref.docRefs
            && Parse(Print(ref)).isUncertain == ref.isUncertain
  {
    var mark := FindMarks(sentence)[k];
    FoundHaveNoBracket(sentence, k);
    RoundTrip(mark);
    var printed := Print(Parse(mark));
    if ']' in printed && !Parse(mark).isUncertain {
      PrintedCharacters(mark, ']');
    }
    BracketedIsFound(printed);
  }
}
