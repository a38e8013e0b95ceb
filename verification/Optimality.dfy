/** No cut into groups that fit has fewer groups than greedy packing makes. */
module Optimality {
  import opened Packing
  import opened Text

  /** alt is a cutting of read + rest whose first group starts with read: a competitor that
      has read the same pieces and still has read in its open group. */
  ghost predicate Competitor<T>(w: T -> nat, limit: nat, read: seq<T>, rest: seq<T>, alt: seq<seq<T>>) {
    Cutting(w, limit, read + rest, alt) && alt != [] && read <= alt[0]
  }

  /** Where the competitor stands after reading one more piece: either the piece goes into
      its open group, or that group is complete and the next one opens with the piece. */
  lemma {:induction false} NextPiece<T>(w: T -> nat, limit: nat, read: seq<T>, rest: seq<T>, alt: seq<seq<T>>)
      returns (read': seq<T>, alt': seq<seq<T>>)
    requires rest != [] && Competitor(w, limit, read, rest, alt)
    ensures Competitor(w, limit, read', rest[1..], alt')
    ensures
      || (read' == read + [rest[0]] && alt' == alt && Fits(w, limit, read'))
      || (read' == [rest[0]] && |alt'| < |alt|)
    decreases |alt|
  {
    assert read + rest == read + [rest[0]] + rest[1..];
    if |read| < |alt[0]| {
      read', alt' := read + [rest[0]], alt;
      assert alt[0][|read|] == Flatten(alt)[|read|] == rest[0];
      assert alt[0] == read' + alt[0][|read'|..];
      WeightConcat(w, read', alt[0][|read'|..]);
    } else {
      var tail := alt[1..];
      assert Flatten(tail) == rest by {
        assert alt[0] == read;
        assert Flatten(alt)[|read|..] == Flatten(tail);
        assert (read + rest)[|read|..] == rest;
      }
      assert tail != [];
      assert forall i :: 0 <= i < |tail| ==> tail[i] == alt[i + 1];
      assert [] + rest == rest;
      read', alt' := NextPiece(w, limit, [], rest, tail);
      if alt' == tail {
        assert read' == [rest[0]];
      }
    }
  }

  /** Greedy stays ahead. If its open group is a suffix of what the competitor has in its
      open group, it needs no more groups; wherever it stands, it needs at most one more. */
  lemma {:induction false} GreedyStaysAhead<T>(w: T -> nat, limit: nat, cur: seq<T>, rest: seq<T>, read: seq<T>, alt: seq<seq<T>>, lead: seq<T>)
    requires Competitor(w, limit, read, rest, alt)
    ensures |Greedy(w, limit, cur, rest)| <= |alt| + 1
    ensures read == lead + cur && cur != [] ==> |Greedy(w, limit, cur, rest)| <= |alt|
    decreases |rest|
  {
    if rest != [] {
      var x, rest' := rest[0], rest[1..];
      var read', alt' := NextPiece(w, limit, read, rest, alt);
      WeightConcat(w, lead, cur);
      WeightSnoc(w, read, x);
      if Weight(w, cur) + w(x) > limit && cur != [] {
        GreedyStaysAhead(w, limit, [x], rest', read', alt', read'[..|read'| - 1]);
      } else {
        GreedyStaysAhead(w, limit, cur + [x], rest', read', alt', lead);
        assert lead + (cur + [x]) == lead + cur + [x];
      }
    }
  }

  /** No cut of the pieces into contiguous groups that fit has fewer groups. */
  lemma GreedyIsOptimal<T>(w: T -> nat, limit: nat, xs: seq<T>, alt: seq<seq<T>>)
    requires Cutting(w, limit, xs, alt)
    ensures |Greedy(w, limit, [], xs)| <= |alt|
  {
    if xs != [] {
      var x, rest := xs[0], xs[1..];
      assert [] + xs == xs;
      assert alt != [];
      var read', alt' := NextPiece(w, limit, [], xs, alt);
      assert [] + [x] == [x];
      GreedyStaysAhead(w, limit, [x], rest, read', alt', []);
    }
  }
}
