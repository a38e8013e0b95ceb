/** Greedy packing of a sequence of weighted pieces under a token limit, the loop shared by
    the sentence packer and the section splitter: what it makes of the pieces. */
module Packing {
  import opened Text

  /** The running total of a group: the sum of the weights of its pieces. */
  function Weight<T>(w: T -> nat, xs: seq<T>): nat {
    if xs == [] then 0 else w(xs[0]) + Weight(w, xs[1..])
  }

  lemma {:induction false} WeightConcat<T>(w: T -> nat, a: seq<T>, b: seq<T>)
    ensures Weight(w, a + b) == Weight(w, a) + Weight(w, b)
  {
    if a == [] {
      assert a + b == b;
    } else {
      assert (a + b)[1..] == a[1..] + b;
      WeightConcat(w, a[1..], b);
    }
  }

  lemma WeightSnoc<T>(w: T -> nat, a: seq<T>, x: T)
    ensures Weight(w, a + [x]) == Weight(w, a) + w(x)
  {
    WeightConcat(w, a, [x]);
  }

  /** The groups still to be emitted when cur is the open group and rest is unread. */
  function Greedy<T>(w: T -> nat, limit: nat, cur: seq<T>, rest: seq<T>): seq<seq<T>>
    decreases |rest|
  {
    if rest == [] then
      if cur == [] then [] else [cur]
    else if Weight(w, cur) + w(rest[0]) > limit && cur != [] then
      [cur] + Greedy(w, limit, [rest[0]], rest[1..])
    else
      Greedy(w, limit, cur + [rest[0]], rest[1..])
  }

  /** A group is within the limit, or a single piece (which cannot be cut further). */
  ghost predicate Fits<T>(w: T -> nat, limit: nat, group: seq<T>) {
    |group| <= 1 || Weight(w, group) <= limit
  }

  /** groups cuts xs into contiguous groups that all fit. */
  ghost predicate Cutting<T>(w: T -> nat, limit: nat, xs: seq<T>, groups: seq<seq<T>>) {
    && Flatten(groups) == xs
    && forall i :: 0 <= i < |groups| ==> Fits(w, limit, groups[i])
  }

  ghost predicate NoneEmpty<T>(groups: seq<seq<T>>) {
    forall i :: 0 <= i < |groups| ==> groups[i] != []
  }

  /** Greedy packing loses and reorders nothing, emits no empty group, and every group fits. */
  lemma {:induction false} GreedyIsCutting<T>(w: T -> nat, limit: nat, cur: seq<T>, rest: seq<T>)
    requires Fits(w, limit, cur)
    ensures Cutting(w, limit, cur + rest, Greedy(w, limit, cur, rest))
    ensures NoneEmpty(Greedy(w, limit, cur, rest))
    decreases |rest|
  {
    if rest == [] {
      assert cur + rest == cur;
      if cur != [] {
        assert Flatten([cur]) == cur + Flatten([cur][1..]) == cur;
      }
    } else if Weight(w, cur) + w(rest[0]) > limit && cur != [] {
      GreedyIsCutting(w, limit, [rest[0]], rest[1..]);
      assert [rest[0]] + rest[1..] == rest;
      FlattenConcat([cur], Greedy(w, limit, [rest[0]], rest[1..]));
      assert Flatten([cur]) == cur + Flatten([cur][1..]) == cur;
    } else {
      WeightSnoc(w, cur, rest[0]);
      GreedyIsCutting(w, limit, cur + [rest[0]], rest[1..]);
      assert cur + [rest[0]] + rest[1..] == cur + rest;
    }
  }

  lemma GreedyFromStart<T>(w: T -> nat, limit: nat, xs: seq<T>)
    ensures Cutting(w, limit, xs, Greedy(w, limit, [], xs))
    ensures NoneEmpty(Greedy(w, limit, [], xs))
  {
    GreedyIsCutting(w, limit, [], xs);
    assert [] + xs == xs;
  }

  /** group is full before next: the first piece of next would not have fitted. */
  ghost predicate Full<T>(w: T -> nat, limit: nat, group: seq<T>, next: seq<T>) {
    next != [] && Weight(w, group) + w(next[0]) > limit
  }

  /** Every group but the last is full before the one that follows it. */
  ghost predicate AllFull<T>(w: T -> nat, limit: nat, groups: seq<seq<T>>) {
    forall i, j :: 0 <= i && j == i + 1 < |groups| ==> Full(w, limit, groups[i], groups[j])
  }

  /** Every group but the last is full. */
  lemma {:induction false} GreedyIsFull<T>(w: T -> nat, limit: nat, cur: seq<T>, rest: seq<T>)
    ensures AllFull(w, limit, Greedy(w, limit, cur, rest))
    ensures cur != [] ==> Greedy(w, limit, cur, rest) != [] && cur <= Greedy(w, limit, cur, rest)[0]
    decreases |rest|
  {
    if rest == [] {
    } else if Weight(w, cur) + w(rest[0]) > limit && cur != [] {
      GreedyIsFull(w, limit, [rest[0]], rest[1..]);
      var gs := Greedy(w, limit, [rest[0]], rest[1..]);
      assert gs[0][0] == rest[0];
      assert Full(w, limit, cur, gs[0]);
    } else {
      GreedyIsFull(w, limit, cur + [rest[0]], rest[1..]);
    }
  }
}
