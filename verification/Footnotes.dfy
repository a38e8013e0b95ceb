/** Footnote numbering: the Markdown generator, the DOCX generator and the citation formatter
    each number the citation marks of a document, in their own way. */
module Footnotes {
  import opened FirstSeen
  import opened Sorting

  /** A section's content: plain text and citation marks [ref:id]. */
  datatype Token = Text(s: string) | Ref(id: string)

  /** The content after replacement: a mark has become a footnote number. */
  datatype Noted = Plain(s: string) | Note(n: nat)

  function RefsOf(tokens: seq<Token>): seq<string> {
    if tokens == [] then []
    else
      var before, last := RefsOf(tokens[..|tokens| - 1]), tokens[|tokens| - 1];
      if last.Ref? then before + [last.id] else before
  }

  /** The tokens of all sections in order. */
  function Document(sections: seq<seq<Token>>): seq<Token> {
    if sections == [] then [] else Document(sections[..|sections| - 1]) + sections[|sections| - 1]
  }

  /** The reference definition: refs are numbered from 1 in order of first appearance. */
  function Numbering(tokens: seq<Token>): seq<string> {
    Firsts(RefsOf(tokens))
  }

  /** The number of a ref under a list of numbered refs. */
  function Number(refs: seq<string>, id: string): nat
    requires id in refs
  {
    IndexOf(refs, id) + 1
  }

  /** Every mark among the tokens is one of refs. */
  ghost predicate Covers(refs: seq<string>, tokens: seq<Token>) {
    forall t :: t in tokens && t.Ref? ==> t.id in refs
  }

  function Annotate(refs: seq<string>, t: Token): Noted
    requires t.Ref? ==> t.id in refs
  {
    match t
    case Text(s) => Plain(s)
    case Ref(id) => Note(Number(refs, id))
  }

  /** Each mark replaced by its number. */
  function Replaced(refs: seq<string>, tokens: seq<Token>): seq<Noted>
    requires Covers(refs, tokens)
  {
    if tokens == [] then []
    else
      var last := tokens[|tokens| - 1];
      Replaced(refs, tokens[..|tokens| - 1]) + [Annotate(refs, last)]
  }

  // ----- The shared map -----

  /** The map from refs to numbers that the generators fill, with its keys in the order they
      were inserted. */
  class RefMap {
    var numbers: map<string, nat>
    var order: seq<string>

    /** The map numbers its keys from 1 in insertion order. */
    ghost predicate Valid()
      reads this
    {
      && Distinct(order)
      && (forall id :: id in numbers <==> id in order)
      && (forall i :: 0 <= i < |order| ==> numbers[order[i]] == i + 1)
      && |numbers| == |order|
    }

    constructor ()
      ensures Valid() && order == []
    {
      numbers, order := map[], [];
    }

    /** ref_map.setdefault(ref_id, len(ref_map) + 1) */
    method SetDefault(id: string) returns (num: nat)
      requires Valid()
      modifies this
      ensures Valid()
      ensures order == if id in old(order) then old(order) else old(order) + [id]
      ensures id in order && num == Number(order, id)
    {
      if id !in numbers {
        numbers := numbers[id := |numbers| + 1];
        order := order + [id];
        assert order[|order| - 1] == id;
      }
      num := numbers[id];
      NumberIsIndex(order, id);
    }
  }

  lemma NumberIsIndex(order: seq<string>, id: string)
    requires Distinct(order) && id in order
    ensures forall i :: 0 <= i < |order| && order[i] == id ==> Number(order, id) == i + 1
  {
  }

  lemma RefsSnoc(tokens: seq<Token>, t: Token)
    ensures RefsOf(tokens + [t]) == if t.Ref? then RefsOf(tokens) + [t.id] else RefsOf(tokens)
  {
    assert (tokens + [t])[..|tokens|] == tokens;
  }

  lemma {:induction false} RefsConcat(a: seq<Token>, b: seq<Token>)
    ensures RefsOf(a + b) == RefsOf(a) + RefsOf(b)
  {
    if b == [] {
      assert a + b == a;
    } else {
      var front := b[..|b| - 1];
      assert a + b == a + front + [b[|b| - 1]];
      RefsConcat(a, front);
      RefsSnoc(a + front, b[|b| - 1]);
    }
  }

  lemma {:induction false} InRefs(tokens: seq<Token>)
    ensures Covers(RefsOf(tokens), tokens) && Covers(Numbering(tokens), tokens)
  {
    if tokens != [] {
      InRefs(tokens[..|tokens| - 1]);
      assert tokens == tokens[..|tokens| - 1] + [tokens[|tokens| - 1]];
    }
    FirstsAreElements(RefsOf(tokens));
  }

  /** Numbers given early are kept. */
  lemma NumberStays(refs: seq<string>, more: seq<string>, id: string)
    requires id in refs && refs <= more
    ensures id in more && Number(more, id) == Number(refs, id)
  {
    var i := IndexOf(refs, id);
    assert more[..i] == refs[..i];
    IndexIsUnique(more, id, i);
  }

  lemma {:induction false} ReplacedStays(refs: seq<string>, more: seq<string>, tokens: seq<Token>)
    requires refs <= more && Covers(refs, tokens)
    ensures Covers(more, tokens) && Replaced(more, tokens) == Replaced(refs, tokens)
  {
    if tokens != [] {
      var front, last := tokens[..|tokens| - 1], tokens[|tokens| - 1];
      ReplacedStays(refs, more, front);
      if last.Ref? {
        NumberStays(refs, more, last.id);
      }
      forall t | t in tokens && t.Ref?
        ensures t.id in more
      {
        NumberStays(refs, more, t.id);
      }
    }
  }

  // ----- The Markdown and DOCX generators -----

  lemma NumberingSnoc(tokens: seq<Token>, t: Token)
    ensures Numbering(tokens + [t]) ==
            if t.Ref? && t.id !in Numbering(tokens) then Numbering(tokens) + [t.id] else Numbering(tokens)
  {
    RefsSnoc(tokens, t);
    FirstsAreElements(RefsOf(tokens));
  }

  /** One more mark: a ref not numbered yet gets the next number. */
  function AddMark(refs: seq<string>, t: Token): seq<string> {
    if t.Ref? && t.id !in refs then refs + [t.id] else refs
  }

  /** The refs numbered after the first n tokens of a section, refs having been numbered before. */
  function AddMarks(refs: seq<string>, section: seq<Token>, n: nat): seq<string>
    requires n <= |section|
  {
    if n == 0 then refs else AddMark(AddMarks(refs, section, n - 1), section[n - 1])
  }

  lemma {:induction false} AddMarksIsNumbering(before: seq<Token>, section: seq<Token>, n: nat)
    requires n <= |section|
    ensures AddMarks(Numbering(before), section, n) == Numbering(before + section[..n])
  {
    if n == 0 {
      assert before + section[..0] == before;
    } else {
      AddMarksIsNumbering(before, section, n - 1);
      assert before + section[..n] == before + section[..n - 1] + [section[n - 1]];
      NumberingSnoc(before + section[..n - 1], section[n - 1]);
    }
  }

  lemma AllMarksAdded(before: seq<Token>, section: seq<Token>)
    ensures AddMarks(Numbering(before), section, |section|) == Numbering(before + section)
  {
    AddMarksIsNumbering(before, section, |section|);
    assert section[..|section|] == section;
  }

  lemma NumberingGrows(a: seq<Token>, b: seq<Token>)
    ensures Numbering(a) <= Numbering(a + b)
  {
    RefsConcat(a, b);
    FirstsGrow(RefsOf(a), RefsOf(b));
  }

  /** The replacement of one match; text between matches is kept. */
  method ReplaceToken(t: Token, refMap: RefMap) returns (x: Noted)
    requires refMap.Valid()
    modifies refMap
    ensures refMap.Valid() && old(refMap.order) <= refMap.order
    ensures refMap.order == AddMark(old(refMap.order), t)
    ensures (t.Ref? ==> t.id in refMap.order) && x == Annotate(refMap.order, t)
  {
    match t {
      case Text(s) => x := Plain(s);
      case Ref(id) =>
        var num := refMap.SetDefault(id);
        x := Note(num);
    }
  }

  /** Replacing the marks of one section, when those of before have been numbered already. */
  method ReplaceRefs(section: seq<Token>, refMap: RefMap, ghost before: seq<Token>) returns (r: seq<Noted>)
    requires refMap.Valid() && refMap.order == Numbering(before)
    modifies refMap
    ensures refMap.Valid() && refMap.order == Numbering(before + section)
    ensures Covers(refMap.order, section) && r == Replaced(refMap.order, section)
  {
    r := [];
    ghost var refs := refMap.order;
    for i := 0 to |section|
      invariant refMap.Valid() && refMap.order == AddMarks(refs, section, i)
      invariant Covers(refMap.order, section[..i]) && r == Replaced(refMap.order, section[..i])
    {
      ghost var known := refMap.order;
      var x := ReplaceToken(section[i], refMap);
      r := r + [x];
      ReplacedStays(known, refMap.order, section[..i]);
      ReplacedSnoc(refMap.order, section, i);
    }
    AllMarksAdded(before, section);
    assert section[..|section|] == section;
  }

  lemma ReplacedSnoc(refs: seq<string>, section: seq<Token>, i: nat)
    requires i < |section| && Covers(refs, section[..i]) && (section[i].Ref? ==> section[i].id in refs)
    ensures Covers(refs, section[..i + 1])
    ensures Replaced(refs, section[..i + 1])
         == Replaced(refs, section[..i]) + [Annotate(refs, section[i])]
  {
    assert section[..i + 1][..i] == section[..i];
  }

  /** Section i has become processed[i], all under the same numbers. */
  ghost predicate AllReplaced(refs: seq<string>, sections: seq<seq<Token>>, processed: seq<seq<Noted>>) {
    && |processed| == |sections|
    && forall i :: 0 <= i < |sections| ==> Covers(refs, sections[i]) && processed[i] == Replaced(refs, sections[i])
  }

  lemma AllReplacedStays(refs: seq<string>, more: seq<string>, sections: seq<seq<Token>>, processed: seq<seq<Noted>>)
    requires AllReplaced(refs, sections, processed) && refs <= more
    ensures AllReplaced(more, sections, processed)
  {
    forall i | 0 <= i < |sections|
      ensures Covers(more, sections[i]) && processed[i] == Replaced(more, sections[i])
    {
      ReplacedStays(refs, more, sections[i]);
    }
  }

  lemma AllReplacedSnoc(refs: seq<string>, sections: seq<seq<Token>>, processed: seq<seq<Noted>>, section: seq<Token>, content: seq<Noted>)
    requires AllReplaced(refs, sections, processed)
    requires Covers(refs, section) && content == Replaced(refs, section)
    ensures AllReplaced(refs, sections + [section], processed + [content])
  {
  }

  lemma DocumentSnoc(sections: seq<seq<Token>>, i: nat)
    requires i < |sections|
    ensures sections[..i + 1] == sections[..i] + [sections[i]]
    ensures Document(sections[..i + 1]) == Document(sections[..i]) + sections[i]
  {
    assert sections[..i + 1][..i] == sections[..i];
  }

  /** The first pass over the sections, shared by both generators. */
  method ReplaceAll(sections: seq<seq<Token>>) returns (processed: seq<seq<Noted>>, refMap: RefMap)
    ensures fresh(refMap) && refMap.Valid() && refMap.order == Numbering(Document(sections))
    ensures AllReplaced(Numbering(Document(sections)), sections, processed)
  {
    refMap := new RefMap();
    processed := [];
    for i := 0 to |sections|
      invariant fresh(refMap) && refMap.Valid() && refMap.order == Numbering(Document(sections[..i]))
      invariant AllReplaced(refMap.order, sections[..i], processed)
    {
      ghost var done, old_order := Document(sections[..i]), refMap.order;
      DocumentSnoc(sections, i);
      var content := ReplaceRefs(sections[i], refMap, done);
      NumberingGrows(done, sections[i]);
      AllReplacedStays(old_order, refMap.order, sections[..i], processed);
      AllReplacedSnoc(refMap.order, sections[..i], processed, sections[i], content);
      processed := processed + [content];
    }
    assert sections[..|sections|] == sections;
  }

  /** The Markdown generator: the replaced sections, and the list of the second pass, which
      goes over the marks again with a set of its own. Entry i is footnote i + 1. */
  method GenerateMarkdown(sections: seq<seq<Token>>) returns (processed: seq<seq<Noted>>, entries: seq<string>)
    ensures entries == Numbering(Document(sections)) && AllReplaced(entries, sections, processed)
  {
    var refMap;
    processed, refMap := ReplaceAll(sections);
    entries := [];
    var seen: set<string> := {};
    for i := 0 to |sections|
      invariant entries == Numbering(Document(sections[..i]))
      invariant forall id :: id in seen <==> id in entries
    {
      DocumentSnoc(sections, i);
      entries, seen := ListMarks(sections[i], entries, seen, Document(sections[..i]));
    }
    assert sections[..|sections|] == sections;
  }

  /** The second pass over one section. */
  method ListMarks(section: seq<Token>, entries0: seq<string>, seen0: set<string>, ghost before: seq<Token>)
      returns (entries: seq<string>, seen: set<string>)
    requires entries0 == Numbering(before) && forall id :: id in seen0 <==> id in entries0
    ensures entries == Numbering(before + section) && forall id :: id in seen <==> id in entries
  {
    entries, seen := entries0, seen0;
    for j := 0 to |section|
      invariant entries == AddMarks(entries0, section, j)
      invariant forall id :: id in seen <==> id in entries
    {
      if section[j].Ref? && section[j].id !in seen {
        seen := seen + {section[j].id};
        entries := entries + [section[j].id];
      }
    }
    AllMarksAdded(before, section);
  }

  /** The DOCX generator: its reference list walks the map in insertion order, numbering
      entries as it goes. Entry i is (i + 1, ref). */
  method GenerateDocx(sections: seq<seq<Token>>) returns (processed: seq<seq<Noted>>, entries: seq<(nat, string)>)
    ensures AllReplaced(Numbering(Document(sections)), sections, processed)
    ensures |entries| == |Numbering(Document(sections))|
    ensures forall i :: 0 <= i < |entries| ==> entries[i] == (i + 1, Numbering(Document(sections))[i])
  {
    var refMap;
    processed, refMap := ReplaceAll(sections);
    entries := ListEntries(refMap.order);
  }

  method ListEntries(order: seq<string>) returns (entries: seq<(nat, string)>)
    ensures |entries| == |order|
    ensures forall i :: 0 <= i < |entries| ==> entries[i] == (i + 1, order[i])
  {
    entries := [];
    for i := 0 to |order|
      invariant |entries| == i
      invariant forall j :: 0 <= j < i ==> entries[j] == (j + 1, order[j])
    {
      entries := entries + [(i + 1, order[i])];
    }
  }

  // ----- The citation formatter -----

  /** The footnote map numbers the marks of text. */
  ghost predicate Numbers(footnotes: map<string, nat>, refs: seq<string>) {
    forall id :: (id in footnotes <==> id in refs) && (id in refs ==> footnotes[id] == Number(refs, id))
  }

  /** The order of the reference list. */
  predicate ByNumber(a: (nat, string), b: (nat, string)) {
    a.0 <= b.0
  }

  /** format_markdown on one text: it first numbers all marks, then replaces them, and lists
      the refs sorted by number. */
  method FormatMarkdown(text: seq<Token>) returns (processed: seq<Noted>, entries: seq<(nat, string)>)
    ensures |entries| == |Numbering(text)|
    ensures forall i :: 0 <= i < |entries| ==> entries[i] == (i + 1, Numbering(text)[i])
    ensures Covers(Numbering(text), text) && processed == Replaced(Numbering(text), text)
  {
    var footnotes, items := NumberMarks(text);
    processed := ReplaceMarks(text, footnotes, Numbering(text));
    entries := Sort(ByNumber, items);
    SortOfSorted(ByNumber, items);
  }

  method ReplaceMarks(text: seq<Token>, footnotes: map<string, nat>, ghost refs: seq<string>) returns (processed: seq<Noted>)
    requires Numbers(footnotes, refs) && refs == Numbering(text)
    ensures Covers(refs, text) && processed == Replaced(refs, text)
  {
    InRefs(text);
    processed := [];
    for i := 0 to |text|
      invariant processed == Replaced(refs, text[..i])
    {
      assert text[..i + 1][..i] == text[..i];
      match text[i] {
        case Text(s) => processed := processed + [Plain(s)];
        case Ref(id) => processed := processed + [Note(footnotes[id])];
      }
    }
    assert text[..|text|] == text;
  }

  /** The footnote map and its items in the order they were put in. */
  method NumberMarks(text: seq<Token>) returns (footnotes: map<string, nat>, entries: seq<(nat, string)>)
    ensures Numbers(footnotes, Numbering(text)) && |entries| == |Numbering(text)|
    ensures forall i :: 0 <= i < |entries| ==> entries[i] == (i + 1, Numbering(text)[i])
  {
    var refCounter := 0;
    footnotes, entries := map[], [];
    ghost var refs: seq<string> := [];
    for i := 0 to |text|
      invariant refs == AddMarks([], text, i)
      invariant refCounter == |entries| == |refs|
      invariant forall j :: 0 <= j < |entries| ==> entries[j] == (j + 1, refs[j])
      invariant Numbers(footnotes, refs)
    {
      if text[i].Ref? && text[i].id !in footnotes {
        NewNumber(refs, text[i].id);
        refs := refs + [text[i].id];
        refCounter := refCounter + 1;
        footnotes := footnotes[text[i].id := refCounter];
        entries := entries + [(refCounter, text[i].id)];
      }
    }
    AllMarksAdded([], text);
    assert [] + text == text;
  }

  lemma NewNumber(refs: seq<string>, id: string)
    requires id !in refs
    ensures Number(refs + [id], id) == |refs| + 1
    ensures forall x :: x in refs ==> x in refs + [id] && Number(refs + [id], x) == Number(refs, x)
  {
    assert (refs + [id])[..|refs|] == refs;
    IndexIsUnique(refs + [id], id, |refs|);
    forall x | x in refs
      ensures x in refs + [id] && Number(refs + [id], x) == Number(refs, x)
    {
      NumberStays(refs, refs + [id], x);
    }
  }

  // ----- Reading numbers back -----

  function Resolve(entries: seq<string>, x: Noted): Token
    requires x.Note? ==> 1 <= x.n <= |entries|
  {
    match x
    case Plain(s) => Text(s)
    case Note(n) => Ref(entries[n - 1])
  }

  ghost predicate Listed(entries: seq<string>, notes: seq<Noted>) {
    forall i :: 0 <= i < |notes| ==> notes[i].Note? ==> 1 <= notes[i].n <= |entries|
  }

  /** Each number replaced by the entry with that number. */
  function Restored(entries: seq<string>, notes: seq<Noted>): seq<Token>
    requires Listed(entries, notes)
  {
    seq(|notes|, i requires 0 <= i < |notes| => Resolve(entries, notes[i]))
  }

  lemma {:induction false} ReplacedAt(refs: seq<string>, tokens: seq<Token>, i: nat)
    requires Covers(refs, tokens) && i < |tokens|
    ensures tokens[i].Ref? ==> tokens[i].id in refs
    ensures |Replaced(refs, tokens)| == |tokens| && Replaced(refs, tokens)[i] == Annotate(refs, tokens[i])
  {
    var front := tokens[..|tokens| - 1];
    if front != [] {
      ReplacedAt(refs, front, if i < |front| then i else 0);
    }
    assert tokens[i] in tokens;
  }

  /** Numbers are distinct, from 1 to n, and replacing each by its entry in the list gives the
      original content back: nothing is lost in the footnotes. */
  lemma RestoresContent(refs: seq<string>, tokens: seq<Token>)
    requires Covers(refs, tokens)
    ensures var notes := Replaced(refs, tokens);
            |notes| == |tokens| && Listed(refs, notes) && Restored(refs, notes) == tokens
  {
    var notes := Replaced(refs, tokens);
    if tokens != [] {
      ReplacedAt(refs, tokens, 0);
    }
    forall i | 0 <= i < |tokens|
      ensures (notes[i].Note? ==> 1 <= notes[i].n <= |refs|) && Resolve(refs, notes[i]) == tokens[i]
    {
      ReplacedAt(refs, tokens, i);
    }
  }

  /** The citation formatter, given the sections put together, numbers every mark as the two
      generators number it section by section: the replaced sections put together are the
      formatter's replaced text, and number n is the same ref in all three lists. */
  lemma {:induction false} SectionsAgreeWithWhole(refs: seq<string>, sections: seq<seq<Token>>, processed: seq<seq<Noted>>)
    requires AllReplaced(refs, sections, processed)
    ensures Covers(refs, Document(sections)) && Concat(processed) == Replaced(refs, Document(sections))
  {
    if sections != [] {
      var front, last := sections[..|sections| - 1], sections[|sections| - 1];
      assert Document(sections) == Document(front) + last;
      SectionsAgreeWithWhole(refs, front, processed[..|processed| - 1]);
      ReplacedConcat(refs, Document(front), last);
    }
  }

  function Concat(notes: seq<seq<Noted>>): seq<Noted> {
    if notes == [] then [] else Concat(notes[..|notes| - 1]) + notes[|notes| - 1]
  }

  lemma {:induction false} ReplacedConcat(refs: seq<string>, a: seq<Token>, b: seq<Token>)
    requires Covers(refs, a) && Covers(refs, b)
    ensures Covers(refs, a + b) && Replaced(refs, a + b) == Replaced(refs, a) + Replaced(refs, b)
  {
    if b == [] {
      assert a + b == a;
    } else {
      var front := b[..|b| - 1];
      assert (a + b)[..|a + b| - 1] == a + front;
      ReplacedConcat(refs, a, front);
    }
  }
}
