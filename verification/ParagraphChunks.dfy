/** What a paragraph-level chunk is made of can be read off it again. */
module ParagraphChunks {
  import opened Merging
  import opened Optimality
  import opened Packing
  import opened ParagraphChunker
  import opened Text

  /** What a paragraph looks like. */
  ghost predicate IsParagraph(p: string) {
    p != "" && Stripped(p) && HasNoBreak(p)
  }

  lemma {:induction false} LastNewlineStays(s: string, t: string)
    requires !AllSpace(s)
    ensures LastNewline(s + t) == LastNewline(s)
  {
    if IsSpace(s[0]) {
      SpaceThenRest(s);
      assert (s + t)[1..] == s[1..] + t;
      LastNewlineStays(s[1..], t);
    }
  }

  lemma SpaceThenRest(s: string)
    requires s != "" && IsSpace(s[0])
    ensures AllSpace(s) <==> AllSpace(s[1..])
  {
    if AllSpace(s[1..]) {
      forall i | 0 <= i < |s|
        ensures IsSpace(s[i])
      {
        assert i > 0 ==> s[i] == s[1..][i - 1];
      }
    }
  }

  /** s ends with something visible and no break starts anywhere in it. */
  ghost predicate NoBreakStarts(s: string) {
    s != "" && !IsSpace(s[|s| - 1]) && forall i :: 0 <= i < |s| ==> BreakLength(s[i..]) == 0
  }

  lemma ParagraphStartsNone(p: string)
    requires IsParagraph(p)
    ensures NoBreakStarts(p)
  {
    forall i | 0 <= i < |p|
      ensures BreakLength(p[i..]) == 0
    {
      var n := BreakLength(p[i..]);
      BreakIsLongestMatch(p[i..], n);
      assert p[i..][..n] == p[i..i + n];
    }
  }

  lemma NoBreakAcross(s: string, t: string)
    requires NoBreakStarts(s)
    ensures BreakLength(s + t) == 0
  {
    assert s[0..] == s && (s + t)[1..] == s[1..] + t;
    if |s| > 1 {
      assert s[1..][|s| - 2] == s[|s| - 1];
      LastNewlineStays(s[1..], t);
    }
  }

  lemma NoBreakStartsRest(s: string)
    requires NoBreakStarts(s) && |s| > 1
    ensures NoBreakStarts(s[1..])
  {
    forall i | 0 <= i < |s| - 1
      ensures BreakLength(s[1..][i..]) == 0
    {
      assert s[1..][i..] == s[i + 1..];
    }
  }

  /** Such a text stays whole at the front of the first piece. */
  lemma {:induction false} ParagraphStays(p: string, rest: string)
    requires NoBreakStarts(p)
    ensures SplitAtBreaks(p + rest)[0] == p + SplitAtBreaks(rest)[0]
    ensures SplitAtBreaks(p + rest)[1..] == SplitAtBreaks(rest)[1..]
    decreases |p|
  {
    NoBreakAcross(p, rest);
    assert (p + rest)[0] == p[0] && (p + rest)[1..] == p[1..] + rest;
    var later := p[1..] + rest;
    assert SplitAtBreaks(p + rest) == PutFirst(p[0], SplitAtBreaks(later));
    if |p| == 1 {
      assert later == rest && p == [p[0]];
    } else {
      NoBreakStartsRest(p);
      ParagraphStays(p[1..], rest);
      ConcatIsAssociative([p[0]], p[1..], SplitAtBreaks(rest)[0]);
      assert [p[0]] + p[1..] == p;
    }
  }

  lemma BlankLineIsBreak(rest: string)
    requires rest != "" && !IsSpace(rest[0])
    ensures SplitAtBreaks("\n\n" + rest) == [""] + SplitAtBreaks(rest)
  {
    var s := "\n\n" + rest;
    assert s[1..] == "\n" + rest && ("\n" + rest)[1..] == rest;
    assert LastNewline("\n" + rest) == 1;
    assert BreakLength(s) == 2 && s[2..] == rest;
  }

  lemma ThenBlankLine(p: string, rest: string)
    requires NoBreakStarts(p) && rest != "" && !IsSpace(rest[0])
    ensures SplitAtBreaks(p + "\n\n" + rest) == [p] + SplitAtBreaks(rest)
  {
    var pieces := SplitAtBreaks(p + ("\n\n" + rest));
    ConcatIsAssociative(p, "\n\n", rest);
    ParagraphStays(p, "\n\n" + rest);
    BlankLineIsBreak(rest);
    assert ([""] + SplitAtBreaks(rest))[1..] == SplitAtBreaks(rest);
    assert p + "" == p && pieces == [pieces[0]] + pieces[1..];
  }

  lemma {:induction false} JoinStartsWithFirst(ps: seq<string>)
    requires ps != [] && ps[0] != ""
    ensures Join("\n\n", ps) != "" && Join("\n\n", ps)[0] == ps[0][0]
  {
  }

  lemma {:induction false} SplitOfJoined(ps: seq<string>)
    requires ps != [] && forall p :: p in ps ==> IsParagraph(p)
    ensures SplitAtBreaks(Join("\n\n", ps)) == ps
  {
    var p := ps[0];
    ParagraphStartsNone(p);
    if |ps| == 1 {
      ParagraphStays(p, "");
      assert p + "" == p;
      var pieces := SplitAtBreaks(p);
      assert pieces == [pieces[0]] + pieces[1..];
    } else {
      var later := ps[1..];
      assert later[0] in ps && forall q :: q in later ==> q in ps;
      JoinStartsWithFirst(later);
      ThenBlankLine(p, Join("\n\n", later));
      SplitOfJoined(later);
      assert [p] + later == ps;
    }
  }

  lemma {:induction false} StrippedAlready(ps: seq<string>)
    requires forall p :: p in ps ==> p != "" && Stripped(p)
    ensures StripAll(ps) == ps
  {
    if ps != [] {
      assert ps[0] in ps && forall q :: q in ps[1..] ==> q in ps;
      StrippedAlready(ps[1..]);
      assert [ps[0]] + ps[1..] == ps;
    }
  }

  /** Paragraphs joined with blank lines are the paragraphs of what comes out. */
  lemma ParagraphsOfJoined(ps: seq<string>)
    requires ps != [] && forall p :: p in ps ==> IsParagraph(p)
    ensures Paragraphs(Join("\n\n", ps)) == ps
  {
    assert ps[0] in ps;
    JoinStartsWithFirst(ps);
    SplitOfJoined(ps);
    StrippedAlready(ps);
  }

  lemma {:induction false} ItemIsListed<T>(bs: seq<Block<T>>, b: Block<T>, x: T)
    requires b in bs && x in ItemsOf(b)
    ensures x in Items(bs)
  {
    if b != bs[0] {
      ItemIsListed(bs[1..], b, x);
    }
  }

  lemma {:induction false} PositiveIsListed<T>(w: T -> nat, xs: seq<T>, x: T)
    requires x in Positive(w, xs)
    ensures x in xs
  {
    if w(xs[0]) == 0 || x != xs[0] {
      PositiveIsListed(w, xs[1..], x);
    }
  }

  /** A chunk of merged paragraphs can be taken apart again: its paragraphs are exactly those of the
      document that were merged into it. */
  lemma MergedChunkParagraphs(text: string, tokens: string -> nat, lim: Limits, k: nat)
    requires lim.min >= 1
    ensures var bs := Blocks(tokens, lim, [], Paragraphs(text));
            k < |bs| && bs[k].Merged? ==>
              Render(bs[k], tokens, lim.max) == [Join("\n\n", bs[k].items)] && Paragraphs(Join("\n\n", bs[k].items)) == bs[k].items
  {
    var bs := Blocks(tokens, lim, [], Paragraphs(text));
    if k < |bs| && bs[k].Merged? {
      BlocksPack(tokens, lim, Paragraphs(text));
      ParagraphsAreFaithful(text);
      assert WellFormed(tokens, lim, bs[k]);
      forall p | p in bs[k].items
        ensures IsParagraph(p)
      {
        ItemIsListed(bs, bs[k], p);
        PositiveIsListed(tokens, Paragraphs(text), p);
      }
      ParagraphsOfJoined(bs[k].items);
    }
  }

  /** An oversized paragraph becomes runs of its sentences joined with single spaces: all of them in
      order, each within the limit or a single sentence, and no cut that fits has fewer. */
  lemma OversizedChunks(para: string, tokens: string -> nat, maxTokens: nat, alt: seq<seq<string>>) returns (groups: seq<seq<string>>)
    ensures Cutting(tokens, maxTokens, Sentences(para), groups)
    ensures |SentenceChunks(para, tokens, maxTokens)| == |groups|
    ensures forall i :: 0 <= i < |groups| ==> groups[i] != [] && SentenceChunks(para, tokens, maxTokens)[i] == Join(" ", groups[i])
    ensures Cutting(tokens, maxTokens, Sentences(para), alt) ==> |groups| <= |alt|
  {
    groups := Greedy(tokens, maxTokens, [], Sentences(para));
    GreedyFromStart(tokens, maxTokens, Sentences(para));
    if Cutting(tokens, maxTokens, Sentences(para), alt) {
      GreedyIsOptimal(tokens, maxTokens, Sentences(para), alt);
    }
  }
}
