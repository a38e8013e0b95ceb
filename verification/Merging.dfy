/** The merging loop shared by both chunkers: items are merged up to a target size, and those
    over the maximum are set aside to be split. */
module Merging {
  import opened Packing
  import opened Text

  /** What a chunker makes of its items: some merged into one chunk, or one item that is
      over the limit on its own and is split further. */
  datatype Block<T> = Merged(items: seq<T>) | Oversized(item: T)

  datatype Limits = Limits(target: nat, min: nat, max: nat)

  /** Flushing the open items before later blocks: nothing is emitted when there are none. */
  function Flush<T>(cur: seq<T>, later: seq<Block<T>>): seq<Block<T>> {
    if cur == [] then later else [Merged(cur)] + later
  }

  /** The blocks still to be emitted by a chunker's loop: merge up to the target once the
      minimum is reached, set aside an item over the maximum, skip an item of no tokens. */
  function Blocks<T>(w: T -> nat, lim: Limits, cur: seq<T>, rest: seq<T>): seq<Block<T>>
    decreases |rest|
  {
    if rest == [] then
      Flush(cur, [])
    else if w(rest[0]) == 0 then
      Blocks(w, lim, cur, rest[1..])
    else if w(rest[0]) > lim.max then
      Flush(cur, [Oversized(rest[0])] + Blocks(w, lim, [], rest[1..]))
    else if Weight(w, cur) + w(rest[0]) > lim.target && Weight(w, cur) >= lim.min then
      [Merged(cur)] + Blocks(w, lim, [rest[0]], rest[1..])
    else
      Blocks(w, lim, cur + [rest[0]], rest[1..])
  }

  function ItemsOf<T>(b: Block<T>): seq<T> {
    match b
    case Merged(items) => items
    case Oversized(item) => [item]
  }

  function Items<T>(blocks: seq<Block<T>>): seq<T> {
    if blocks == [] then [] else ItemsOf(blocks[0]) + Items(blocks[1..])
  }

  lemma ItemsPrepend<T>(b: Block<T>, bs: seq<Block<T>>)
    ensures Items([b] + bs) == ItemsOf(b) + Items(bs)
  {
    assert ([b] + bs)[1..] == bs;
  }

  function Positive<T>(w: T -> nat, xs: seq<T>): seq<T> {
    if xs == [] then [] else if w(xs[0]) == 0 then Positive(w, xs[1..]) else [xs[0]] + Positive(w, xs[1..])
  }

  lemma {:induction false} BlocksHoldItems<T>(w: T -> nat, lim: Limits, cur: seq<T>, rest: seq<T>)
    ensures Items(Blocks(w, lim, cur, rest)) == if cur == [] then Positive(w, rest) else cur + Positive(w, rest)
    decreases |rest|
  {
    if rest == [] {
      if cur != [] { ItemsPrepend(Merged(cur), []); }
    } else {
      var x, rest' := rest[0], rest[1..];
      if w(x) == 0 {
        BlocksHoldItems(w, lim, cur, rest');
      } else if w(x) > lim.max {
        BlocksHoldItems(w, lim, [], rest');
        ItemsPrepend(Oversized(x), Blocks(w, lim, [], rest'));
        if cur != [] { ItemsPrepend(Merged(cur), [Oversized(x)] + Blocks(w, lim, [], rest')); }
      } else if Weight(w, cur) + w(x) > lim.target && Weight(w, cur) >= lim.min {
        BlocksHoldItems(w, lim, [x], rest');
        ItemsPrepend(Merged(cur), Blocks(w, lim, [x], rest'));
      } else {
        BlocksHoldItems(w, lim, cur + [x], rest');
        assert cur + [x] + Positive(w, rest') == cur + ([x] + Positive(w, rest'));
      }
    }
  }

  /** Exactly the items that have tokens are packed, each once and in order. */
  lemma BlocksKeepItems<T>(w: T -> nat, lim: Limits, xs: seq<T>)
    ensures Items(Blocks(w, lim, [], xs)) == Positive(w, xs)
  {
    BlocksHoldItems(w, lim, [], xs);
  }

  function Cap(lim: Limits): int {
    if lim.target > lim.min + lim.max - 1 then lim.target else lim.min + lim.max - 1
  }

  ghost predicate WithinCap<T>(w: T -> nat, lim: Limits, b: Block<T>) {
    match b
    case Merged(items) => items != [] && Weight(w, items) <= Cap(lim)
    case Oversized(item) => w(item) > lim.max
  }

  /** A merged block is closed early only by an oversized item: before another merged block
      it has reached the minimum, and the next item would have taken it past the target. */
  ghost predicate ClosedInTime<T>(w: T -> nat, lim: Limits, b: Block<T>, next: Block<T>) {
    b.Merged? && next.Merged? ==>
      lim.min <= Weight(w, b.items) && next.items != [] && Weight(w, b.items) + w(next.items[0]) > lim.target
  }

  ghost predicate WellPacked<T>(w: T -> nat, lim: Limits, bs: seq<Block<T>>) {
    && (forall i :: 0 <= i < |bs| ==> WithinCap(w, lim, bs[i]))
    && (forall i, j :: 0 <= i && j == i + 1 < |bs| ==> ClosedInTime(w, lim, bs[i], bs[j]))
  }

  lemma WellPackedPrepend<T>(w: T -> nat, lim: Limits, b: Block<T>, bs: seq<Block<T>>)
    requires WellPacked(w, lim, bs) && WithinCap(w, lim, b)
    requires bs != [] ==> ClosedInTime(w, lim, b, bs[0])
    ensures WellPacked(w, lim, [b] + bs)
  {
  }

  /** With a positive minimum, no block is empty, every running total stays within
      max(target, min + max - 1), and blocks are closed only when they should be. */
  lemma {:induction false} BlocksArePacked<T>(w: T -> nat, lim: Limits, cur: seq<T>, rest: seq<T>)
    requires lim.min >= 1 && Weight(w, cur) <= Cap(lim)
    ensures WellPacked(w, lim, Blocks(w, lim, cur, rest))
    ensures var bs := Blocks(w, lim, cur, rest); cur != [] ==> bs != [] && bs[0].Merged? && cur <= bs[0].items
    decreases |rest|
  {
    if rest == [] {
    } else if w(rest[0]) == 0 {
      BlocksArePacked(w, lim, cur, rest[1..]);
    } else if w(rest[0]) > lim.max {
      BlocksArePacked(w, lim, [], rest[1..]);
      var tail := Blocks(w, lim, [], rest[1..]);
      WellPackedPrepend(w, lim, Oversized(rest[0]), tail);
      if cur != [] {
        WellPackedPrepend(w, lim, Merged(cur), [Oversized(rest[0])] + tail);
      }
    } else if Weight(w, cur) + w(rest[0]) > lim.target && Weight(w, cur) >= lim.min {
      assert Weight(w, [rest[0]]) == w(rest[0]);
      BlocksArePacked(w, lim, [rest[0]], rest[1..]);
      WellPackedPrepend(w, lim, Merged(cur), Blocks(w, lim, [rest[0]], rest[1..]));
    } else {
      WeightSnoc(w, cur, rest[0]);
      BlocksArePacked(w, lim, cur + [rest[0]], rest[1..]);
    }
  }

  // ----- When a block grows and when it is closed -----

  /** Item k belongs into the block: it has tokens and is not oversized, and when the block was open
      already it was still below the minimum, or stays within the target with the item. */
  ghost predicate Grows<T>(w: T -> nat, lim: Limits, items: seq<T>, k: nat)
    requires k < |items|
  {
    && 0 < w(items[k]) <= lim.max
    && (k > 0 ==> Weight(w, items[..k]) < lim.min || Weight(w, items[..k + 1]) <= lim.target)
  }

  ghost predicate AllGrow<T>(w: T -> nat, lim: Limits, items: seq<T>) {
    forall k: nat :: k < |items| ==> Grows(w, lim, items, k)
  }

  ghost predicate WellFormed<T>(w: T -> nat, lim: Limits, b: Block<T>) {
    match b
    case Merged(items) => items != [] && AllGrow(w, lim, items)
    case Oversized(item) => w(item) > lim.max
  }

  ghost predicate AllFormed<T>(w: T -> nat, lim: Limits, bs: seq<Block<T>>) {
    forall b :: b in bs ==> WellFormed(w, lim, b)
  }

  ghost predicate ClosedAt<T>(w: T -> nat, lim: Limits, bs: seq<Block<T>>, i: nat)
    requires i + 1 < |bs|
  {
    ClosedInTime(w, lim, bs[i], bs[i + 1])
  }

  ghost predicate AllClosed<T>(w: T -> nat, lim: Limits, bs: seq<Block<T>>) {
    forall i: nat :: i < |bs| - 1 ==> ClosedAt(w, lim, bs, i)
  }

  /** The blocks pack the items: all items with tokens in order, each block grown only as long as it
      may grow, and closed only when the next item may not join it. */
  ghost predicate Packs<T>(w: T -> nat, lim: Limits, xs: seq<T>, bs: seq<Block<T>>) {
    Items(bs) == Positive(w, xs) && AllFormed(w, lim, bs) && AllClosed(w, lim, bs)
  }

  lemma GrowsSnoc<T>(w: T -> nat, lim: Limits, cur: seq<T>, x: T)
    requires AllGrow(w, lim, cur) && 0 < w(x) <= lim.max
    requires cur != [] ==> Weight(w, cur) < lim.min || Weight(w, cur) + w(x) <= lim.target
    ensures AllGrow(w, lim, cur + [x])
  {
    var items := cur + [x];
    WeightSnoc(w, cur, x);
    forall k: nat | k < |items|
      ensures Grows(w, lim, items, k)
    {
      if k < |cur| {
        assert Grows(w, lim, cur, k);
        assert items[..k] == cur[..k] && items[..k + 1] == cur[..k + 1];
      } else {
        assert items[..k] == cur && items[..k + 1] == items;
      }
    }
  }

  lemma {:induction false} BlocksAreFormed<T>(w: T -> nat, lim: Limits, cur: seq<T>, rest: seq<T>)
    requires lim.min >= 1 && AllGrow(w, lim, cur)
    ensures AllFormed(w, lim, Blocks(w, lim, cur, rest))
    decreases |rest|
  {
    if rest != [] {
      var x := rest[0];
      if w(x) == 0 {
        BlocksAreFormed(w, lim, cur, rest[1..]);
      } else if w(x) > lim.max {
        BlocksAreFormed(w, lim, [], rest[1..]);
      } else if Weight(w, cur) + w(x) > lim.target && Weight(w, cur) >= lim.min {
        AllGrowSingle(w, lim, x);
        BlocksAreFormed(w, lim, [x], rest[1..]);
      } else {
        GrowsSnoc(w, lim, cur, x);
        BlocksAreFormed(w, lim, cur + [x], rest[1..]);
      }
    }
  }

  lemma AllGrowSingle<T>(w: T -> nat, lim: Limits, x: T)
    requires 0 < w(x) <= lim.max
    ensures AllGrow(w, lim, [x])
  {
    assert forall k: nat :: k < |[x]| ==> Grows(w, lim, [x], k);
  }

  lemma BlocksPack<T>(w: T -> nat, lim: Limits, xs: seq<T>)
    requires lim.min >= 1
    ensures Packs(w, lim, xs, Blocks(w, lim, [], xs))
  {
    var bs := Blocks(w, lim, [], xs);
    BlocksKeepItems(w, lim, xs);
    BlocksAreFormed(w, lim, [], xs);
    BlocksArePacked(w, lim, [], xs);
    forall i: nat | i < |bs| - 1
      ensures ClosedAt(w, lim, bs, i)
    {
      var j := i + 1;
      assert ClosedInTime(w, lim, bs[i], bs[j]);
    }
  }

  // ----- The only way to pack -----

  lemma FormedRest<T>(w: T -> nat, lim: Limits, bs: seq<Block<T>>)
    requires bs != [] && AllFormed(w, lim, bs) && AllClosed(w, lim, bs)
    ensures WellFormed(w, lim, bs[0]) && ItemsOf(bs[0]) != [] && AllFormed(w, lim, bs[1..]) && AllClosed(w, lim, bs[1..])
    ensures Items(bs) == ItemsOf(bs[0]) + Items(bs[1..])
    ensures |bs| > 1 ==> ClosedInTime(w, lim, bs[0], bs[1])
  {
    assert |bs| > 1 ==> ClosedAt(w, lim, bs, 0);
    var rest := bs[1..];
    forall i: nat | i < |rest| - 1
      ensures ClosedAt(w, lim, rest, i)
    {
      assert ClosedAt(w, lim, bs, i + 1);
    }
  }

  /** An item joins an open block. */
  predicate Joins<T>(w: T -> nat, lim: Limits, cur: seq<T>, x: T) {
    0 < w(x) <= lim.max && (Weight(w, cur) < lim.min || Weight(w, cur) + w(x) <= lim.target)
  }

  /** A block that starts with x is x itself when x is oversized, and a merged block otherwise. */
  lemma FirstBlock<T>(w: T -> nat, lim: Limits, x: T, later: seq<T>, bs: seq<Block<T>>)
    requires AllFormed(w, lim, bs) && AllClosed(w, lim, bs) && Items(bs) == [x] + later
    ensures bs != []
    ensures w(x) > lim.max ==> bs[0] == Oversized(x) && Items(bs[1..]) == later
    ensures w(x) <= lim.max ==> bs[0].Merged? && [x] <= bs[0].items
  {
    FormedRest(w, lim, bs);
    var items := ItemsOf(bs[0]);
    assert items[0] == Items(bs)[0] == x;
    if bs[0].Merged? {
      assert Grows(w, lim, items, 0);
    } else {
      Cancel([x], Items(bs[1..]), later);
    }
  }

  lemma Cancel<T>(a: seq<T>, b: seq<T>, c: seq<T>)
    requires a + b == a + c
    ensures b == c
  {
    assert (a + b)[|a|..] == b && (a + c)[|a|..] == c;
  }

  lemma JoinedAt<T>(w: T -> nat, lim: Limits, items: seq<T>, cur: seq<T>)
    requires AllGrow(w, lim, items) && cur <= items && cur != [] && cur != items
    ensures Joins(w, lim, cur, items[|cur|]) && cur + [items[|cur|]] <= items
  {
    assert Grows(w, lim, items, |cur|);
    assert items[..|cur|] == cur && items[..|cur| + 1] == cur + [items[|cur|]];
    WeightSnoc(w, cur, items[|cur|]);
  }

  /** What follows an open block among the items: when the block ends there, the items of the later
      blocks; otherwise first an item that joins it. */
  lemma OpenBlock<T>(w: T -> nat, lim: Limits, cur: seq<T>, later: seq<T>, bs: seq<Block<T>>)
    requires AllFormed(w, lim, bs) && AllClosed(w, lim, bs) && Items(bs) == cur + later && cur != []
    requires bs != [] && bs[0].Merged? && cur <= bs[0].items
    ensures bs[0].items == cur ==> Items(bs[1..]) == later
    ensures bs[0].items != cur ==> later != [] && Joins(w, lim, cur, later[0]) && cur + [later[0]] <= bs[0].items
  {
    FormedRest(w, lim, bs);
    var items, tail := bs[0].items, Items(bs[1..]);
    if items == cur {
      Cancel(cur, tail, later);
    } else {
      var more := items[|cur|..];
      assert items == cur + more;
      ConcatIsAssociative(cur, more, tail);
      Cancel(cur, more + tail, later);
      JoinedAt(w, lim, items, cur);
      assert more[0] == items[|cur|] && later[0] == more[0];
    }
  }

  /** With cur open, these blocks are the only ones that hold the items. */
  lemma {:induction false} OnlyBlocks<T>(w: T -> nat, lim: Limits, cur: seq<T>, rest: seq<T>, bs: seq<Block<T>>)
    requires lim.min >= 1 && AllFormed(w, lim, bs) && AllClosed(w, lim, bs)
    requires Items(bs) == if cur == [] then Positive(w, rest) else cur + Positive(w, rest)
    requires cur != [] ==> bs != [] && bs[0].Merged? && cur <= bs[0].items
    ensures bs == Blocks(w, lim, cur, rest)
    decreases |rest|
  {
    if rest == [] {
      OnlyBlocksAtEnd(w, lim, cur, bs);
    } else if w(rest[0]) == 0 {
      OnlyBlocks(w, lim, cur, rest[1..], bs);
    } else if cur == [] {
      OnlyBlocksAtStart(w, lim, rest, bs);
      assert cur + [rest[0]] == [rest[0]];
    } else {
      var x, later := rest[0], rest[1..];
      assert Positive(w, rest)[0] == x;
      OpenBlock(w, lim, cur, Positive(w, rest), bs);
      FormedRest(w, lim, bs);
      if bs[0].items == cur {
        FirstBlock(w, lim, x, Positive(w, later), bs[1..]);
        OnlyBlocksAtStart(w, lim, rest, bs[1..]);
        assert [bs[0]] + bs[1..] == bs;
        if w(x) <= lim.max {
          assert bs[1].items[0] == x;
        }
      } else {
        ConcatIsAssociative(cur, [x], Positive(w, later));
        OnlyBlocks(w, lim, cur + [x], later, bs);
      }
    }
  }

  lemma BlocksHaveItems<T>(w: T -> nat, lim: Limits, bs: seq<Block<T>>)
    requires AllFormed(w, lim, bs) && AllClosed(w, lim, bs)
    ensures bs != [] ==> Items(bs) != []
  {
    if bs != [] {
      FormedRest(w, lim, bs);
      assert (ItemsOf(bs[0]) + Items(bs[1..]))[0] == ItemsOf(bs[0])[0];
    }
  }

  lemma OnlyBlocksAtEnd<T>(w: T -> nat, lim: Limits, cur: seq<T>, bs: seq<Block<T>>)
    requires AllFormed(w, lim, bs) && AllClosed(w, lim, bs) && Items(bs) == cur
    requires cur != [] ==> bs != [] && bs[0].Merged? && cur <= bs[0].items
    ensures bs == Flush(cur, [])
  {
    if cur == [] {
      BlocksHaveItems(w, lim, bs);
    } else {
      FormedRest(w, lim, bs);
      var items, tail := bs[0].items, Items(bs[1..]);
      assert |items + tail| == |cur|;
      assert tail == [] && items == cur;
      BlocksHaveItems(w, lim, bs[1..]);
      assert [bs[0]] + bs[1..] == bs;
    }
  }

  /** With no block open and an item that has tokens next. */
  lemma {:induction false} OnlyBlocksAtStart<T>(w: T -> nat, lim: Limits, rest: seq<T>, bs: seq<Block<T>>)
    requires lim.min >= 1 && AllFormed(w, lim, bs) && AllClosed(w, lim, bs)
    requires rest != [] && w(rest[0]) > 0 && Items(bs) == Positive(w, rest)
    ensures bs == if w(rest[0]) > lim.max then [Oversized(rest[0])] + Blocks(w, lim, [], rest[1..]) else Blocks(w, lim, [rest[0]], rest[1..])
    decreases |rest|, 0
  {
    var x, later := rest[0], rest[1..];
    FirstBlock(w, lim, x, Positive(w, later), bs);
    FormedRest(w, lim, bs);
    if w(x) > lim.max {
      OnlyBlocks(w, lim, [], later, bs[1..]);
      assert [bs[0]] + bs[1..] == bs;
    } else {
      OnlyBlocks(w, lim, [x], later, bs);
    }
  }

  /** The loop's blocks are the only ones that pack the items. */
  lemma PacksIff<T>(w: T -> nat, lim: Limits, xs: seq<T>, bs: seq<Block<T>>)
    requires lim.min >= 1
    ensures Packs(w, lim, xs, bs) <==> bs == Blocks(w, lim, [], xs)
  {
    BlocksPack(w, lim, xs);
    if Packs(w, lim, xs, bs) {
      OnlyBlocks(w, lim, [], xs, bs);
    }
  }
}
