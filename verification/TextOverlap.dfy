/** The overlap both chunkers take from the end of a chunk: its last characters, from after a
    separator on when one is found. */
module TextOverlap {
  import opened Text

  /** The last n characters of text, or all of it. */
  function LastChars(text: string, n: nat): string {
    if |text| > n then text[|text| - n..] else text
  }

  /** They are the end of the text, and as many as there are up to n. */
  lemma LastCharsAreEnd(text: string, n: nat)
    ensures var last := LastChars(text, n);
            |last| == (if |text| < n then |text| else n) && last == text[|text| - |last|..]
  {
  }

  /** The text after the first separator, from number i on, whose first occurrence lies past an index. */
  function CutAfter(text: string, sep: nat -> string, count: nat, past: nat, i: nat): string
    decreases count - i
  {
    if i >= count then text
    else
      var idx := FindFrom(text, sep(i), 0);
      if idx > past then text[idx + |sep(i)|..] else CutAfter(text, sep, count, past, i + 1)
  }

  /** The end of the text, by its estimated length in characters. */
  method TakeEnd(text: string, estimatedChars: nat) returns (r: string)
    ensures r == LastChars(text, estimatedChars)
  {
    var chars := |text|;
    var start := if chars - estimatedChars > 0 then chars - estimatedChars else 0;
    r := if start == 0 then text else text[start..];
  }

  /** The loop over the separators. */
  method CutAtSeparator(overlap: string, sep: nat -> string, count: nat, past: nat) returns (r: string)
    ensures r == CutAfter(overlap, sep, count, past, 0)
  {
    ghost var expected := CutAfter(overlap, sep, count, past, 0);
    for i := 0 to count
      invariant expected == CutAfter(overlap, sep, count, past, i)
    {
      var idx := FindFrom(overlap, sep(i), 0);
      if idx > past {
        return overlap[idx + |sep(i)|..];
      }
    }
    r := overlap;
  }

  // ----- Where the cut is -----

  /** The first occurrence of sub is at idx. */
  ghost predicate FirstAt(text: string, sub: string, idx: int) {
    OccursAt(text, idx, sub) && forall j :: 0 <= j < idx ==> !OccursAt(text, j, sub)
  }

  /** sub occurs in the text, and for the first time past an index. */
  ghost predicate StandsPast(text: string, sub: string, past: nat) {
    exists idx :: idx > past && FirstAt(text, sub, idx)
  }

  lemma FoundPast(text: string, sub: string, past: nat)
    ensures FindFrom(text, sub, 0) > past <==> StandsPast(text, sub, past)
    ensures FindFrom(text, sub, 0) > past ==> FirstAt(text, sub, FindFrom(text, sub, 0))
  {
    var i := FindFrom(text, sub, 0);
    FindIsFirst(text, sub, 0);
    if i > past {
      assert FirstAt(text, sub, i);
    }
    forall idx | idx > past && FirstAt(text, sub, idx)
      ensures i > past
    {
      assert idx <= |text| && OccursAt(text, idx, sub);
      assert 0 <= i < idx ==> !OccursAt(text, i, sub);
    }
  }

  /** r is what follows the first occurrence, at idx, of separator n, the first one listed from i on that
      is found past the index; or all of the text, when n is the number of separators. */
  ghost predicate IsCut(text: string, sep: nat -> string, count: nat, past: nat, i: nat, n: nat, idx: int, r: string) {
    && i <= n <= count && (forall m: nat :: i <= m < n ==> !StandsPast(text, sep(m), past))
    && (n < count ==> idx > past && FirstAt(text, sep(n), idx) && r == text[idx + |sep(n)|..])
    && (n == count ==> r == text)
  }

  /** The cut comes right after the first occurrence of the first separator listed that is found past
      the index; when none is, nothing is cut. */
  lemma {:induction false} CutIsAfterFirst(text: string, sep: nat -> string, count: nat, past: nat, i: nat) returns (n: nat, idx: int)
    requires i <= count
    ensures IsCut(text, sep, count, past, i, n, idx, CutAfter(text, sep, count, past, i))
    decreases count - i
  {
    n, idx := i, 0;
    if i < count {
      FoundPast(text, sep(i), past);
      idx := FindFrom(text, sep(i), 0);
      if idx <= past {
        n, idx := CutIsAfterFirst(text, sep, count, past, i + 1);
      }
    }
  }

  lemma CutIsSuffix(text: string, sep: nat -> string, count: nat, past: nat) returns (k: nat)
    ensures k <= |text| && CutAfter(text, sep, count, past, 0) == text[k..]
  {
    var n, idx := CutIsAfterFirst(text, sep, count, past, 0);
    k := if n < count then idx + |sep(n)| else 0;
  }
}
