/** Sequences of characters as the services handle them: white space, stripping, joining,
    splitting on a separator and searching. */
module Text {

  const SPACE_RANGE_COUNT := 10

  /** The code points of white space, as inclusive ranges. */
  function SpaceRange(i: nat): (int, int) {
    match i
    case 0 => (9, 13)
    case 1 => (0x1c, 0x20)
    case 2 => (0x85, 0x85)
    case 3 => (0xa0, 0xa0)
    case 4 => (0x1680, 0x1680)
    case 5 => (0x2000, 0x200a)
    case 6 => (0x2028, 0x2029)
    case 7 => (0x202f, 0x202f)
    case 8 => (0x205f, 0x205f)
    case _ => (0x3000, 0x3000)
  }

  predicate InRanges(code: int, i: nat)
    decreases SPACE_RANGE_COUNT - i
  {
    i < SPACE_RANGE_COUNT && (SpaceRange(i).0 <= code <= SpaceRange(i).1 || InRanges(code, i + 1))
  }

  /** The characters that strip() removes and that \s matches. */
  predicate IsSpace(c: char) {
    c == '\n' || c == ' ' || InRanges(c as int, 0)
  }

  predicate AllSpace(s: string) {
    forall i :: 0 <= i < |s| ==> IsSpace(s[i])
  }

  /** Neither end is white space. */
  predicate Stripped(s: string) {
    s != "" ==> !IsSpace(s[0]) && !IsSpace(s[|s| - 1])
  }

  /** The visible text of s: its characters other than white space, in order. */
  function Visible(s: string): string {
    if s == "" then "" else if IsSpace(s[0]) then Visible(s[1..]) else [s[0]] + Visible(s[1..])
  }

  lemma {:induction false} VisibleConcat(a: string, b: string)
    ensures Visible(a + b) == Visible(a) + Visible(b)
  {
    if a == "" {
      assert a + b == b;
    } else {
      assert (a + b)[1..] == a[1..] + b;
      VisibleConcat(a[1..], b);
    }
  }

  lemma {:induction false} VisibleOfSpace(s: string)
    ensures Visible(s) == "" <==> AllSpace(s)
  {
    if s != "" {
      VisibleOfSpace(s[1..]);
      assert AllSpace(s) <==> IsSpace(s[0]) && AllSpace(s[1..]);
    }
  }

  function TrimLeft(s: string): string {
    if s != "" && IsSpace(s[0]) then TrimLeft(s[1..]) else s
  }

  function TrimRight(s: string): string {
    if s != "" && IsSpace(s[|s| - 1]) then TrimRight(s[..|s| - 1]) else s
  }

  function Strip(s: string): string {
    TrimRight(TrimLeft(s))
  }

  lemma {:induction false} TrimLeftParts(s: string) returns (a: string)
    ensures s == a + TrimLeft(s) && AllSpace(a)
    ensures TrimLeft(s) != "" ==> !IsSpace(TrimLeft(s)[0])
  {
    a := "";
    if s != "" && IsSpace(s[0]) {
      var a' := TrimLeftParts(s[1..]);
      a := [s[0]] + a';
    }
  }

  lemma {:induction false} TrimRightParts(s: string) returns (b: string)
    ensures s == TrimRight(s) + b && AllSpace(b)
    ensures TrimRight(s) != "" ==> !IsSpace(TrimRight(s)[|TrimRight(s)| - 1])
  {
    b := "";
    if s != "" && IsSpace(s[|s| - 1]) {
      var b' := TrimRightParts(s[..|s| - 1]);
      b := b' + [s[|s| - 1]];
    }
  }

  lemma ConcatIsAssociative<T>(a: seq<T>, b: seq<T>, c: seq<T>)
    ensures a + b + c == a + (b + c)
  {
  }

  lemma StripIsStripped(s: string)
    ensures Stripped(Strip(s))
  {
    var t := TrimLeft(s);
    var a := TrimLeftParts(s);
    var b := TrimRightParts(t);
    if Strip(s) != "" {
      assert (Strip(s) + b)[0] == Strip(s)[0];
    }
  }

  /** Stripping cuts white space off both ends and nothing else. */
  lemma StripParts(s: string) returns (a: string, b: string)
    ensures s == a + Strip(s) + b && AllSpace(a) && AllSpace(b)
    ensures Stripped(Strip(s))
  {
    StripIsStripped(s);
    a := TrimLeftParts(s);
    b := TrimRightParts(TrimLeft(s));
    ConcatIsAssociative(a, Strip(s), b);
  }

  /** Stripping cuts a slice out of s, with only white space around it. */
  lemma StripWithin(s: string) returns (from: nat, to: nat)
    ensures from <= to <= |s|
    ensures Strip(s) == s[from..to] && AllSpace(s[..from]) && AllSpace(s[to..])
  {
    var a, b := StripParts(s);
    from, to := |a|, |a| + |Strip(s)|;
    assert s[..from] == a && s[from..to] == Strip(s) && s[to..] == b;
  }

  /** What is visible lies within the stripped slice. */
  lemma StripBounds(s: string) returns (from: nat, to: nat)
    ensures from <= to <= |s| && Strip(s) == s[from..to]
    ensures forall i :: 0 <= i < |s| && !IsSpace(s[i]) ==> from <= i < to
  {
    from, to := StripWithin(s);
    forall i | 0 <= i < |s| && !(from <= i < to)
      ensures IsSpace(s[i])
    {
      if i < from {
        assert s[..from][i] == s[i];
      } else {
        assert s[to..][i - to] == s[i];
      }
    }
  }

  lemma SliceOfSlice(s: string, a: nat, b: nat, i: nat, j: nat)
    requires a <= b <= |s| && i <= j <= b - a
    ensures s[a..b][i..j] == s[a + i..a + j]
  {
    var l, r := s[a..b][i..j], s[a + i..a + j];
    assert |l| == |r| == j - i;
    forall k | 0 <= k < j - i
      ensures l[k] == r[k]
    {
      assert l[k] == s[a..b][i + k] == s[a + i + k];
    }
  }

  lemma VisibleStrip(s: string)
    ensures Visible(Strip(s)) == Visible(s)
    ensures Strip(s) == "" <==> AllSpace(s)
  {
    var a, b := StripParts(s);
    VisibleConcat(a + Strip(s), b);
    VisibleConcat(a, Strip(s));
    VisibleOfSpace(a);
    VisibleOfSpace(b);
    VisibleOfSpace(s);
    VisibleOfSpace(Strip(s));
    if Strip(s) != "" && AllSpace(Strip(s)) {
      assert false;
    }
  }

  function Flatten<T>(xss: seq<seq<T>>): seq<T> {
    if xss == [] then [] else xss[0] + Flatten(xss[1..])
  }

  lemma {:induction false} FlattenConcat<T>(a: seq<seq<T>>, b: seq<seq<T>>)
    ensures Flatten(a + b) == Flatten(a) + Flatten(b)
  {
    if a == [] {
      assert a + b == b;
    } else {
      assert (a + b)[1..] == a[1..] + b;
      FlattenConcat(a[1..], b);
    }
  }

  lemma FlattenSingle<T>(xs: seq<T>)
    ensures Flatten([xs]) == xs
  {
    assert Flatten([xs]) == xs + Flatten([xs][1..]);
  }

  lemma VisiblePrepend(s: string, parts: seq<string>)
    ensures Visible(Flatten([s] + parts)) == Visible(s) + Visible(Flatten(parts))
  {
    assert ([s] + parts)[1..] == parts;
    VisibleConcat(s, Flatten(parts));
  }

  lemma VisibleAppend(a: seq<string>, b: seq<string>)
    ensures Visible(Flatten(a + b)) == Visible(Flatten(a)) + Visible(Flatten(b))
  {
    FlattenConcat(a, b);
    VisibleConcat(Flatten(a), Flatten(b));
  }

  /** sep.join(parts) */
  function Join(sep: string, parts: seq<string>): string {
    if |parts| == 0 then "" else if |parts| == 1 then parts[0] else parts[0] + sep + Join(sep, parts[1..])
  }

  /** Joining with white space adds nothing visible. */
  lemma {:induction false} VisibleJoin(sep: string, parts: seq<string>)
    requires AllSpace(sep)
    ensures Visible(Join(sep, parts)) == Visible(Flatten(parts))
  {
    if |parts| == 1 {
      assert Flatten(parts) == parts[0] + Flatten(parts[1..]) == parts[0];
    } else if |parts| > 1 {
      VisibleJoin(sep, parts[1..]);
      VisibleOfSpace(sep);
      VisibleConcat(parts[0] + sep, Join(sep, parts[1..]));
      VisibleConcat(parts[0], sep);
      VisibleConcat(parts[0], Flatten(parts[1..]));
    }
  }

  lemma {:induction false} JoinConcat(sep: string, a: seq<string>, b: seq<string>)
    requires a != [] && b != []
    ensures Join(sep, a + b) == Join(sep, a) + sep + Join(sep, b)
  {
    if |a| == 1 {
      assert (a + b)[1..] == b;
    } else {
      assert (a + b)[1..] == a[1..] + b;
      JoinConcat(sep, a[1..], b);
    }
  }

  function JoinEach(sep: string, groups: seq<seq<string>>): (r: seq<string>)
    ensures |r| == |groups|
    ensures forall i :: 0 <= i < |groups| ==> r[i] == Join(sep, groups[i])
  {
    seq(|groups|, i requires 0 <= i < |groups| => Join(sep, groups[i]))
  }

  /** Joining the joins of non-empty groups is joining all the parts. */
  lemma {:induction false} JoinOfJoins(sep: string, groups: seq<seq<string>>)
    requires forall i :: 0 <= i < |groups| ==> groups[i] != []
    ensures Join(sep, JoinEach(sep, groups)) == Join(sep, Flatten(groups))
  {
    if |groups| == 1 {
      assert Flatten(groups) == groups[0] + Flatten(groups[1..]) == groups[0];
    } else if |groups| > 1 {
      JoinOfJoins(sep, groups[1..]);
      assert JoinEach(sep, groups)[1..] == JoinEach(sep, groups[1..]);
      assert Flatten(groups[1..]) == groups[1] + Flatten(groups[1..][1..]);
      JoinConcat(sep, groups[0], Flatten(groups[1..]));
    }
  }

  lemma {:induction false} VisibleJoinEach(sep: string, groups: seq<seq<string>>)
    requires AllSpace(sep)
    ensures Visible(Flatten(JoinEach(sep, groups))) == Visible(Flatten(Flatten(groups)))
  {
    if groups != [] {
      VisibleJoinEach(sep, groups[1..]);
      assert JoinEach(sep, groups)[1..] == JoinEach(sep, groups[1..]);
      VisibleJoin(sep, groups[0]);
      FlattenConcat(groups[0], Flatten(groups[1..]));
      VisibleConcat(Join(sep, groups[0]), Flatten(JoinEach(sep, groups[1..])));
      VisibleConcat(Flatten(groups[0]), Flatten(Flatten(groups[1..])));
    }
  }

  predicate StartsWith(s: string, p: string) {
    |p| <= |s| && s[..|p|] == p
  }

  /** sub stands in s at index i. */
  predicate OccursAt(s: string, i: int, sub: string) {
    0 <= i <= i + |sub| <= |s| && forall k :: 0 <= k < |sub| ==> s[i + k] == sub[k]
  }

  /** s.find(sub, start): the least index at or after start where sub occurs, or -1. */
  function FindFrom(s: string, sub: string, start: nat): (i: int)
    ensures i == -1 || start <= i <= i + |sub| <= |s|
    decreases |s| - start
  {
    if start > |s| then -1
    else if OccursAt(s, start, sub) then start
    else if start == |s| then -1
    else FindFrom(s, sub, start + 1)
  }

  lemma {:induction false} FindIsFirst(s: string, sub: string, start: nat)
    ensures var i := FindFrom(s, sub, start);
            && (i != -1 ==> OccursAt(s, i, sub))
            && forall j :: start <= j <= |s| && (i == -1 || j < i) ==> !OccursAt(s, j, sub)
    decreases |s| - start
  {
    if start < |s| && !OccursAt(s, start, sub) {
      FindIsFirst(s, sub, start + 1);
    }
  }

  /** c put before the first of the pieces. */
  function PutFirst(c: char, pieces: seq<string>): (r: seq<string>)
    requires pieces != []
    ensures |r| == |pieces| && r[0] == [c] + pieces[0] && r[1..] == pieces[1..]
  {
    [[c] + pieces[0]] + pieces[1..]
  }

  lemma FlattenPutFirst(c: char, pieces: seq<string>)
    requires pieces != []
    ensures Flatten(PutFirst(c, pieces)) == [c] + Flatten(pieces)
  {
    assert [c] + pieces[0] + Flatten(pieces[1..]) == [c] + (pieces[0] + Flatten(pieces[1..]));
  }

  lemma VisiblePutFirst(c: char, pieces: seq<string>)
    requires pieces != []
    ensures Visible(Flatten(PutFirst(c, pieces))) == Visible([c] + Flatten(pieces))
  {
    FlattenPutFirst(c, pieces);
  }

  /** s.split(sep) for a non-empty separator. */
  function SplitOn(sep: string, s: string): (pieces: seq<string>)
    requires sep != ""
    ensures pieces != []
    decreases |s|
  {
    if s == "" then [""]
    else if StartsWith(s, sep) then [""] + SplitOn(sep, s[|sep|..])
    else PutFirst(s[0], SplitOn(sep, s[1..]))
  }

  lemma JoinEmptyFirst(sep: string, pieces: seq<string>)
    requires pieces != []
    ensures Join(sep, [""] + pieces) == sep + Join(sep, pieces)
  {
    assert ([""] + pieces)[1..] == pieces;
  }

  /** Joining the pieces of a split gives the text back. */
  lemma {:induction false} JoinOfSplit(sep: string, s: string)
    requires sep != ""
    ensures Join(sep, SplitOn(sep, s)) == s
    decreases |s|
  {
    if s == "" {
    } else if StartsWith(s, sep) {
      JoinOfSplit(sep, s[|sep|..]);
      JoinEmptyFirst(sep, SplitOn(sep, s[|sep|..]));
      assert s == sep + s[|sep|..];
    } else {
      JoinOfSplit(sep, s[1..]);
    }
  }

  /** text[a:b] with the bounds clipped to the text. */
  function Slice(text: string, a: nat, b: nat): string {
    var end := if b < |text| then b else |text|;
    if a >= end then "" else if a == 0 then text[..end] else text[a..end]
  }

  /** The progress of a loop that emits expected one by one. */
  lemma TakeNext<T>(expected: seq<T>, i: nat)
    requires i < |expected|
    ensures expected[..i] + [expected[i]] == expected[..i + 1]
  {
  }

  /** The progress of a loop that emits expected: done is its beginning, tail the rest. */
  ghost predicate Remains<T>(expected: seq<T>, done: seq<T>, tail: seq<T>) {
    done <= expected && expected[|done|..] == tail
  }

  lemma Advance<T>(expected: seq<T>, done: seq<T>, piece: seq<T>, tail: seq<T>)
    requires Remains(expected, done, piece + tail)
    ensures Remains(expected, done + piece, tail)
  {
    assert expected == done + expected[|done|..];
    assert expected == done + (piece + tail) == done + piece + tail;
  }

  lemma NothingRemains<T>(expected: seq<T>, done: seq<T>)
    requires Remains(expected, done, [])
    ensures done == expected
  {
    assert |expected[|done|..]| == 0;
  }

  // ----- Where a text is cut -----

  /** One of the pieces other than the last ends after n characters. */
  predicate CutAt(pieces: seq<string>, n: nat) {
    |pieces| > 1 && (n == |pieces[0]| || (n > |pieces[0]| && CutAt(pieces[1..], n - |pieces[0]|)))
  }

  lemma CutAfterFirst(c: char, pieces: seq<string>, n: nat)
    requires pieces != [] && n >= 1
    ensures CutAt([[c]] + pieces, n) <==> n == 1 || CutAt(pieces, n - 1)
    ensures pieces[0] != "" || |pieces| == 1 ==> !CutAt(pieces, 0)
  {
    assert ([[c]] + pieces)[1..] == pieces;
  }

  lemma CutWithFirst(c: char, pieces: seq<string>, n: nat)
    requires pieces != [] && n >= 1
    ensures CutAt(PutFirst(c, pieces), n) <==> CutAt(pieces, n - 1)
  {
  }
}
