/** The stable sort the services rely on, for any total preorder. */
module Sorting {

  ghost predicate TotalPreorder<T(!new)>(le: (T, T) -> bool) {
    && (forall x, y :: le(x, y) || le(y, x))
    && (forall x, y, z :: le(x, y) && le(y, z) ==> le(x, z))
  }

  ghost predicate Sorted<T>(le: (T, T) -> bool, xs: seq<T>) {
    forall i, j :: 0 <= i < j < |xs| ==> le(xs[i], xs[j])
  }

  function Insert<T>(le: (T, T) -> bool, x: T, ys: seq<T>): seq<T> {
    if ys == [] || le(x, ys[0]) then [x] + ys else [ys[0]] + Insert(le, x, ys[1..])
  }

  /** An element goes before the later ones it ties with, so ties keep their order. */
  function Sort<T>(le: (T, T) -> bool, xs: seq<T>): seq<T> {
    if xs == [] then [] else Insert(le, xs[0], Sort(le, xs[1..]))
  }

  lemma {:induction false} InsertKeeps<T>(le: (T, T) -> bool, x: T, ys: seq<T>)
    ensures multiset(Insert(le, x, ys)) == multiset{x} + multiset(ys)
  {
    if ys != [] && !le(x, ys[0]) {
      InsertKeeps(le, x, ys[1..]);
      assert ys == [ys[0]] + ys[1..];
    }
  }

  lemma {:induction false} SortKeeps<T>(le: (T, T) -> bool, xs: seq<T>)
    ensures multiset(Sort(le, xs)) == multiset(xs)
    ensures |Sort(le, xs)| == |xs|
  {
    if xs != [] {
      SortKeeps(le, xs[1..]);
      InsertKeeps(le, xs[0], Sort(le, xs[1..]));
      assert xs == [xs[0]] + xs[1..];
    }
    assert |multiset(Sort(le, xs))| == |multiset(xs)|;
  }

  lemma {:induction false} InsertSorts<T(!new)>(le: (T, T) -> bool, x: T, ys: seq<T>)
    requires TotalPreorder(le) && Sorted(le, ys)
    ensures Sorted(le, Insert(le, x, ys))
  {
    if ys != [] && !le(x, ys[0]) {
      InsertSorts(le, x, ys[1..]);
      InsertKeeps(le, x, ys[1..]);
      var r := Insert(le, x, ys[1..]);
      forall j | 0 <= j < |r|
        ensures le(ys[0], r[j])
      {
        assert r[j] in multiset(r);
        assert r[j] == x || r[j] in ys[1..];
      }
    } else if ys != [] {
      forall j | 0 <= j < |ys|
        ensures le(x, ys[j])
      {
        assert le(x, ys[0]) && (j > 0 ==> le(ys[0], ys[j]));
      }
    }
  }

  lemma {:induction false} SortSorts<T(!new)>(le: (T, T) -> bool, xs: seq<T>)
    requires TotalPreorder(le)
    ensures Sorted(le, Sort(le, xs))
  {
    if xs != [] {
      SortSorts(le, xs[1..]);
      InsertSorts(le, xs[0], Sort(le, xs[1..]));
    }
  }

  /** A list in order stays as it is. */
  lemma {:induction false} SortOfSorted<T>(le: (T, T) -> bool, xs: seq<T>)
    requires Sorted(le, xs)
    ensures Sort(le, xs) == xs
  {
    if xs != [] {
      SortOfSorted(le, xs[1..]);
      assert |xs| > 1 ==> le(xs[0], xs[1]);
      assert [xs[0]] + xs[1..] == xs;
    }
  }

  function Filter<T>(p: T -> bool, xs: seq<T>): seq<T> {
    if xs == [] then [] else if p(xs[0]) then [xs[0]] + Filter(p, xs[1..]) else Filter(p, xs[1..])
  }

  lemma {:induction false} InsertIsStable<T(!new)>(le: (T, T) -> bool, p: T -> bool, x: T, ys: seq<T>)
    requires forall a, b :: p(a) && p(b) ==> le(a, b)
    ensures Filter(p, Insert(le, x, ys)) == if p(x) then [x] + Filter(p, ys) else Filter(p, ys)
  {
    if ys == [] || le(x, ys[0]) {
      assert ([x] + ys)[1..] == ys;
    } else {
      InsertIsStable(le, p, x, ys[1..]);
      assert Insert(le, x, ys)[1..] == Insert(le, x, ys[1..]);
    }
  }

  /** Elements that tie with each other come out in the order they went in. */
  lemma {:induction false} SortIsStable<T(!new)>(le: (T, T) -> bool, p: T -> bool, xs: seq<T>)
    requires forall a, b :: p(a) && p(b) ==> le(a, b)
    ensures Filter(p, Sort(le, xs)) == Filter(p, xs)
  {
    if xs != [] {
      SortIsStable(le, p, xs[1..]);
      InsertIsStable(le, p, xs[0], Sort(le, xs[1..]));
    }
  }
}
