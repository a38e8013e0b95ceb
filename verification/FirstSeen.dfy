/** The distinct elements of a list in order of first appearance: the order in which a
    dictionary filled from the list holds its keys. */
module FirstSeen {

  function Firsts<T(==)>(xs: seq<T>): seq<T> {
    if xs == [] then []
    else
      var before, last := Firsts(xs[..|xs| - 1]), xs[|xs| - 1];
      if last in before then before else before + [last]
  }

  ghost predicate Distinct<T>(xs: seq<T>) {
    forall i, j :: 0 <= i < j < |xs| ==> xs[i] != xs[j]
  }

  /** The same elements, each once. */
  lemma {:induction false} FirstsAreElements<T(!new)>(xs: seq<T>)
    ensures forall x :: x in Firsts(xs) <==> x in xs
    ensures Distinct(Firsts(xs))
  {
    if xs != [] {
      var before, last := xs[..|xs| - 1], xs[|xs| - 1];
      FirstsAreElements(before);
      assert xs == before + [last];
    }
  }

  /** What was seen earlier keeps its place. */
  lemma {:induction false} FirstsGrow<T(!new)>(xs: seq<T>, ys: seq<T>)
    ensures Firsts(xs) <= Firsts(xs + ys)
  {
    if ys == [] {
      assert xs + ys == xs;
    } else {
      FirstsGrow(xs, ys[..|ys| - 1]);
      assert xs + ys == xs + ys[..|ys| - 1] + [ys[|ys| - 1]];
    }
  }

  /** Where x stands in a list that has it. */
  function IndexOf<T(==)>(xs: seq<T>, x: T): (i: nat)
    requires x in xs
    ensures i < |xs| && xs[i] == x && x !in xs[..i]
  {
    if xs[0] == x then 0 else IndexOf(xs[1..], x) + 1
  }

  /** The order is that of first appearance: of two distinct elements the one whose first
      occurrence comes first is listed first. */
  lemma {:induction false} FirstsInOrder<T(!new)>(xs: seq<T>, i: nat, j: nat)
    requires i < j < |Firsts(xs)|
    ensures Firsts(xs)[i] in xs && Firsts(xs)[j] in xs
    ensures IndexOf(xs, Firsts(xs)[i]) < IndexOf(xs, Firsts(xs)[j])
    decreases |xs|
  {
    var before, last := xs[..|xs| - 1], xs[|xs| - 1];
    assert xs == before + [last];
    FirstsAreElements(xs);
    FirstsAreElements(before);
    if j < |Firsts(before)| {
      FirstsInOrder(before, i, j);
      IndexOfPrefix(before, last, Firsts(xs)[i]);
      IndexOfPrefix(before, last, Firsts(xs)[j]);
    } else {
      IndexOfPrefix(before, last, Firsts(xs)[i]);
      assert forall k :: 0 <= k < |before| ==> before[k] != last;
    }
  }

  lemma IndexOfPrefix<T(!new)>(xs: seq<T>, last: T, x: T)
    requires x in xs
    ensures IndexOf(xs + [last], x) == IndexOf(xs, x)
  {
    var i := IndexOf(xs, x);
    assert (xs + [last])[..i] == xs[..i];
    IndexIsUnique(xs + [last], x, i);
  }

  lemma {:induction false} IndexIsUnique<T(!new)>(xs: seq<T>, x: T, i: nat)
    requires i < |xs| && xs[i] == x && x !in xs[..i]
    ensures IndexOf(xs, x) == i
  {
    if i > 0 {
      assert xs[..i][0] == xs[0];
      assert xs[1..][..i - 1] == xs[..i][1..];
      IndexIsUnique(xs[1..], x, i - 1);
    }
  }
}
