/** Hybrid search: reciprocal rank fusion of two ranked lists, truncation and paging. */
module HybridSearch {
  import opened Options
  import opened FirstSeen
  import opened Sorting

  datatype Hit = Hit(id: string, payload: string, score: real)

  function Ids(hits: seq<Hit>): (r: seq<string>)
    ensures |r| == |hits|
    ensures forall i :: 0 <= i < |hits| ==> r[i] == hits[i].id
  {
    seq(|hits|, i requires 0 <= i < |hits| => hits[i].id)
  }

  /** 1 / n */
  function Inverse(n: nat): real
    requires n >= 1
  {
    1.0 / n as real
  }

  /** The sum of 1 / (k + rank) over the occurrences of id in a ranked list. */
  function Score(k: nat, ids: seq<string>, id: string): real {
    if ids == [] then 0.0
    else Score(k, ids[..|ids| - 1], id) + if ids[|ids| - 1] == id then Inverse(k + |ids|) else 0.0
  }

  /** The fused score of an id. */
  function Total(k: nat, vec: seq<string>, bm: seq<string>, id: string): real {
    Score(k, vec, id) + Score(k, bm, id)
  }

  function NotWorse(k: nat, vec: seq<string>, bm: seq<string>): (string, string) -> bool {
    (a, b) => Total(k, vec, bm, a) >= Total(k, vec, bm, b)
  }

  /** The ids of both lists, best score first, ties in order of first appearance. */
  function Ranking(k: nat, vec: seq<string>, bm: seq<string>): seq<string> {
    Sort(NotWorse(k, vec, bm), Firsts(vec + bm))
  }

  /** The first hit with an id. */
  function FirstHit(hits: seq<Hit>, id: string): Hit
    requires id in Ids(hits)
  {
    hits[IndexOf(Ids(hits), id)]
  }

  // ----- The fusion as it is written -----

  /** The dictionaries of the fusion: scores and first hits by id, and the order of their keys. */
  datatype Tables = Tables(order: seq<string>, scores: map<string, real>, merged: map<string, Hit>)

  /** The tables have the ids of the hits read so far, in order of first appearance. */
  ghost predicate Keyed(t: Tables, seen: seq<Hit>) {
    && t.order == Firsts(Ids(seen))
    && (forall id :: id in t.scores <==> id in Ids(seen))
    && t.merged.Keys == t.scores.Keys
  }

  /** Each id has the score it has by now and its first hit. */
  ghost predicate Valued(t: Tables, seen: seq<Hit>, score: string -> real)
    requires Keyed(t, seen)
  {
    && (forall id :: score(id) == if id in t.scores then t.scores[id] else 0.0)
    && (forall id :: id in t.merged ==> t.merged[id] == FirstHit(seen, id))
  }

  ghost predicate Holds(t: Tables, seen: seq<Hit>, score: string -> real) {
    Keyed(t, seen) && Valued(t, seen, score)
  }

  /** One iteration of either loop: the hit's reciprocal rank is added to its score, and the
      first hit with an id is kept. */
  method AddHit(t: Tables, k: nat, rank: nat, hit: Hit) returns (r: Tables)
    requires rank >= 1
    ensures r == AfterHit(t, k, rank, hit)
  {
    var score := 1.0 / (k + rank) as real;
    var scores := t.scores[hit.id := (if hit.id in t.scores then t.scores[hit.id] else 0.0) + score];
    var order := if hit.id in t.scores then t.order else t.order + [hit.id];
    var merged := t.merged;
    if hit.id !in merged {
      merged := merged[hit.id := hit];
    }
    r := Tables(order, scores, merged);
  }

  function AfterHit(t: Tables, k: nat, rank: nat, hit: Hit): Tables
    requires rank >= 1
  {
    Tables(
      if hit.id in t.scores then t.order else t.order + [hit.id],
      t.scores[hit.id := (if hit.id in t.scores then t.scores[hit.id] else 0.0) + Inverse(k + rank)],
      if hit.id in t.merged then t.merged else t.merged[hit.id := hit])
  }

  lemma {:induction false} ScoreAbsent(k: nat, ids: seq<string>, id: string)
    requires id !in ids
    ensures Score(k, ids, id) == 0.0
  {
    if ids != [] {
      ScoreAbsent(k, ids[..|ids| - 1], id);
    }
  }

  lemma IdsSnoc(hits: seq<Hit>, h: Hit)
    ensures Ids(hits + [h]) == Ids(hits) + [h.id]
  {
  }

  lemma IdsConcat(a: seq<Hit>, b: seq<Hit>)
    ensures Ids(a + b) == Ids(a) + Ids(b)
  {
  }

  lemma FirstHitSnoc(hits: seq<Hit>, h: Hit, id: string)
    requires id in Ids(hits)
    ensures id in Ids(hits + [h]) && FirstHit(hits + [h], id) == FirstHit(hits, id)
  {
    IdsSnoc(hits, h);
    IndexOfPrefix(Ids(hits), h.id, id);
  }

  lemma FirstHitNew(hits: seq<Hit>, h: Hit)
    requires h.id !in Ids(hits)
    ensures h.id in Ids(hits + [h]) && FirstHit(hits + [h], h.id) == h
  {
    IdsSnoc(hits, h);
    assert (Ids(hits) + [h.id])[..|hits|] == Ids(hits);
    IndexIsUnique(Ids(hits) + [h.id], h.id, |hits|);
  }

  lemma KeyedAfterHit(t: Tables, seen: seq<Hit>, k: nat, rank: nat, h: Hit)
    requires Keyed(t, seen) && rank >= 1
    ensures Keyed(AfterHit(t, k, rank, h), seen + [h])
  {
    var t' := AfterHit(t, k, rank, h);
    var ids := Ids(seen);
    IdsSnoc(seen, h);
    FirstsAreElements(ids);
    assert t'.scores.Keys == t.scores.Keys + {h.id};
    assert t'.merged.Keys == t.scores.Keys + {h.id};
  }

  lemma FirstHitsAfterHit(t: Tables, seen: seq<Hit>, k: nat, rank: nat, h: Hit, id: string)
    requires Keyed(t, seen) && rank >= 1 && id in AfterHit(t, k, rank, h).merged
    requires id in t.merged ==> t.merged[id] == FirstHit(seen, id)
    ensures id in Ids(seen + [h]) && AfterHit(t, k, rank, h).merged[id] == FirstHit(seen + [h], id)
  {
    if id in t.merged {
      FirstHitSnoc(seen, h, id);
    } else {
      FirstHitNew(seen, h);
    }
  }

  /** Reading one more hit adds its reciprocal rank to the score of its id. */
  lemma HoldsAfterHit(t: Tables, seen: seq<Hit>, score: string -> real, k: nat, rank: nat, h: Hit, score': string -> real)
    requires Holds(t, seen, score) && rank >= 1
    requires forall id :: score'(id) == score(id) + if id == h.id then Inverse(k + rank) else 0.0
    ensures Holds(AfterHit(t, k, rank, h), seen + [h], score')
  {
    KeyedAfterHit(t, seen, k, rank, h);
    forall id | id in AfterHit(t, k, rank, h).merged
      ensures id in Ids(seen + [h]) && AfterHit(t, k, rank, h).merged[id] == FirstHit(seen + [h], id)
    {
      FirstHitsAfterHit(t, seen, k, rank, h, id);
    }
  }

  function ScoreSoFar(k: nat, ids: seq<string>): string -> real {
    id => Score(k, ids, id)
  }

  function TotalSoFar(k: nat, vec: seq<string>, bm: seq<string>): string -> real {
    id => ScoreSoFar(k, vec)(id) + ScoreSoFar(k, bm)(id)
  }

  lemma ScoreAfterHit(k: nat, seen: seq<Hit>, h: Hit)
    ensures forall id ::
              ScoreSoFar(k, Ids(seen + [h]))(id) == ScoreSoFar(k, Ids(seen))(id) + if id == h.id then Inverse(k + (|seen| + 1)) else 0.0
  {
    IdsSnoc(seen, h);
    assert Ids(seen + [h])[..|seen|] == Ids(seen);
  }

  method ReadFirst(vec: seq<Hit>, k: nat) returns (t: Tables)
    ensures Holds(t, vec, ScoreSoFar(k, Ids(vec)))
  {
    t := Tables([], map[], map[]);
    for i := 0 to |vec|
      invariant Holds(t, vec[..i], ScoreSoFar(k, Ids(vec[..i])))
    {
      assert vec[..i + 1] == vec[..i] + [vec[i]];
      ScoreAfterHit(k, vec[..i], vec[i]);
      HoldsAfterHit(t, vec[..i], ScoreSoFar(k, Ids(vec[..i])), k, i + 1, vec[i], ScoreSoFar(k, Ids(vec[..i + 1])));
      t := AddHit(t, k, i + 1, vec[i]);
    }
    assert vec[..|vec|] == vec;
  }

  lemma HoldsAfterSecond(t: Tables, k: nat, vec: seq<Hit>, seen: seq<Hit>, h: Hit)
    requires Holds(t, vec + seen, TotalSoFar(k, Ids(vec), Ids(seen)))
    ensures Holds(AfterHit(t, k, |seen| + 1, h), vec + (seen + [h]), TotalSoFar(k, Ids(vec), Ids(seen + [h])))
  {
    ScoreAfterHit(k, seen, h);
    assert vec + (seen + [h]) == vec + seen + [h];
    HoldsAfterHit(t, vec + seen, TotalSoFar(k, Ids(vec), Ids(seen)), k, |seen| + 1, h, TotalSoFar(k, Ids(vec), Ids(seen + [h])));
  }

  method ReadSecond(t0: Tables, vec: seq<Hit>, bm: seq<Hit>, k: nat) returns (t: Tables)
    requires Holds(t0, vec, ScoreSoFar(k, Ids(vec)))
    ensures Holds(t, vec + bm, TotalSoFar(k, Ids(vec), Ids(bm)))
  {
    t := t0;
    assert vec + bm[..0] == vec;
    for i := 0 to |bm|
      invariant Holds(t, vec + bm[..i], TotalSoFar(k, Ids(vec), Ids(bm[..i])))
    {
      assert bm[..i + 1] == bm[..i] + [bm[i]];
      HoldsAfterSecond(t, k, vec, bm[..i], bm[i]);
      t := AddHit(t, k, i + 1, bm[i]);
    }
    assert bm[..|bm|] == bm;
  }

  method Fuse(vec: seq<Hit>, bm: seq<Hit>, k: nat) returns (fused: seq<Hit>)
    ensures fused == Fused(k, vec, bm)
  {
    var t := ReadFirst(vec, k);
    t := ReadSecond(t, vec, bm, k);
    IdsConcat(vec, bm);
    SameIds(k, Ids(vec), Ids(bm));
    var sortedIds := Sort(NotWorse(k, Ids(vec), Ids(bm)), t.order);
    assert sortedIds == Ranking(k, Ids(vec), Ids(bm));
    fused := TakeHits(t, sortedIds);
    forall i | 0 <= i < |fused|
      ensures fused[i] == Fused(k, vec, bm)[i]
    {
      TakenHit(t, k, vec, bm, sortedIds[i]);
    }
  }

  lemma TakenHit(t: Tables, k: nat, vec: seq<Hit>, bm: seq<Hit>, id: string)
    requires Holds(t, vec + bm, TotalSoFar(k, Ids(vec), Ids(bm))) && id in Ids(vec + bm)
    ensures id in t.scores && id in t.merged
    ensures t.merged[id].(score := t.scores[id]) == FirstHit(vec + bm, id).(score := Total(k, Ids(vec), Ids(bm), id))
  {
    assert t.scores[id] == TotalSoFar(k, Ids(vec), Ids(bm))(id) == ScoreSoFar(k, Ids(vec))(id) + ScoreSoFar(k, Ids(bm))(id);
  }

  /** The hits of the sorted ids, with their new scores. */
  method TakeHits(t: Tables, sortedIds: seq<string>) returns (fused: seq<Hit>)
    requires forall i :: 0 <= i < |sortedIds| ==> sortedIds[i] in t.scores && sortedIds[i] in t.merged
    ensures |fused| == |sortedIds|
    ensures forall i :: 0 <= i < |fused| ==> fused[i] == t.merged[sortedIds[i]].(score := t.scores[sortedIds[i]])
  {
    fused := [];
    for i := 0 to |sortedIds|
      invariant |fused| == i
      invariant forall j :: 0 <= j < i ==> fused[j] == t.merged[sortedIds[j]].(score := t.scores[sortedIds[j]])
    {
      var cid := sortedIds[i];
      fused := fused + [t.merged[cid].(score := t.scores[cid])];
    }
  }

  /** The fused list: every id of either list with its first payload and its total score. */
  function Fused(k: nat, vec: seq<Hit>, bm: seq<Hit>): (r: seq<Hit>)
    ensures |r| == |Ranking(k, Ids(vec), Ids(bm))|
    ensures forall i :: 0 <= i < |r| ==> r[i].id == Ranking(k, Ids(vec), Ids(bm))[i]
  {
    SameIds(k, Ids(vec), Ids(bm));
    IdsConcat(vec, bm);
    var ranking := Ranking(k, Ids(vec), Ids(bm));
    seq(|ranking|, i requires 0 <= i < |ranking| =>
      FirstHit(vec + bm, ranking[i]).(score := Total(k, Ids(vec), Ids(bm), ranking[i])))
  }

  lemma SameIds(k: nat, vec: seq<string>, bm: seq<string>)
    ensures var r := Ranking(k, vec, bm);
            && (forall id :: id in r <==> id in vec || id in bm)
            && (forall i :: 0 <= i < |r| ==> r[i] in vec + bm)
            && multiset(r) == multiset(Firsts(vec + bm))
  {
    var r := Ranking(k, vec, bm);
    FirstsAreElements(vec + bm);
    SortKeeps(NotWorse(k, vec, bm), Firsts(vec + bm));
    forall id
      ensures id in r <==> id in vec || id in bm
    {
      assert id in r <==> id in multiset(r);
      assert id in Firsts(vec + bm) <==> id in multiset(Firsts(vec + bm));
    }
    forall i | 0 <= i < |r|
      ensures r[i] in vec + bm
    {
      assert r[i] in r;
    }
  }

  /** A fused hit has the payload of the first hit with its id, one of the first list if that has it, and
      its total score. */
  lemma FusedHit(k: nat, vec: seq<Hit>, bm: seq<Hit>, i: nat) returns (j: nat)
    requires i < |Fused(k, vec, bm)|
    ensures var hit, all := Fused(k, vec, bm)[i], vec + bm;
            && j < |all| && hit == Hit(all[j].id, all[j].payload, Total(k, Ids(vec), Ids(bm), all[j].id))
            && forall l :: 0 <= l < j ==> all[l].id != hit.id
    ensures Fused(k, vec, bm)[i].id in Ids(vec) <==> j < |vec|
  {
    var all, id := vec + bm, Fused(k, vec, bm)[i].id;
    SameIds(k, Ids(vec), Ids(bm));
    IdsConcat(vec, bm);
    j := IndexOf(Ids(all), id);
    FirstOfAll(vec, bm, id, j);
  }

  lemma FirstOfAll(vec: seq<Hit>, bm: seq<Hit>, id: string, j: nat)
    requires j < |vec + bm| && (vec + bm)[j].id == id && id !in Ids(vec + bm)[..j]
    ensures forall l :: 0 <= l < j ==> (vec + bm)[l].id != id
    ensures id in Ids(vec) <==> j < |vec|
  {
    forall l | 0 <= l < j
      ensures (vec + bm)[l].id != id
    {
      assert Ids(vec + bm)[..j][l] == (vec + bm)[l].id;
    }
    if id in Ids(vec) {
      var l :| 0 <= l < |vec| && Ids(vec)[l] == id;
      assert (vec + bm)[l].id == id;
    }
    if j < |vec| {
      assert Ids(vec)[j] == id;
    }
  }

  // ----- What the fused list is -----

  /** Every id of the two lists comes out exactly once, scores do not increase, and ids of
      equal score keep the order in which they were first seen. */
  lemma FusedIsRanking(k: nat, vec: seq<string>, bm: seq<string>, score: real)
    ensures var r := Ranking(k, vec, bm);
            && Distinct(r)
            && (forall id :: id in r <==> id in vec || id in bm)
            && (forall i, j :: 0 <= i < j < |r| ==> Total(k, vec, bm, r[i]) >= Total(k, vec, bm, r[j]))
            && var tied := (id: string) => Total(k, vec, bm, id) == score;
               Filter(tied, r) == Filter(tied, Firsts(vec + bm))
  {
    var r, le := Ranking(k, vec, bm), NotWorse(k, vec, bm);
    assert TotalPreorder(le);
    SortSorts(le, Firsts(vec + bm));
    forall i, j | 0 <= i < j < |r|
      ensures Total(k, vec, bm, r[i]) >= Total(k, vec, bm, r[j])
    {
      assert le(r[i], r[j]);
    }
    SameIds(k, vec, bm);
    FirstsAreElements(vec + bm);
    DistinctBySize(Firsts(vec + bm), r);
    SortIsStable(le, (id: string) => Total(k, vec, bm, id) == score, Firsts(vec + bm));
  }

  lemma DistinctBySize(a: seq<string>, b: seq<string>)
    requires Distinct(a) && multiset(a) == multiset(b)
    ensures Distinct(b)
  {
    forall i, j | 0 <= i < j < |b|
      ensures b[i] != b[j]
    {
      if b[i] == b[j] {
        var x := b[i];
        CountTwice(b, i, j);
        CountOnce(a, x);
      }
    }
  }

  lemma CountTwice(b: seq<string>, i: nat, j: nat)
    requires i < j < |b| && b[i] == b[j]
    ensures multiset(b)[b[i]] >= 2
  {
    assert b == b[..j] + b[j..];
    assert b[i] in b[..j] && b[j] in b[j..];
    assert multiset(b) == multiset(b[..j]) + multiset(b[j..]);
  }

  lemma {:induction false} CountOnce(a: seq<string>, x: string)
    requires Distinct(a)
    ensures multiset(a)[x] <= 1
  {
    if a != [] {
      CountOnce(a[1..], x);
      assert a == [a[0]] + a[1..];
      assert x == a[0] ==> x !in a[1..];
    }
  }

  // ----- Ranks -----

  lemma {:induction false} ScoreAtRank(k: nat, ids: seq<string>, i: nat)
    requires Distinct(ids) && i < |ids|
    ensures Score(k, ids, ids[i]) == Inverse(k + i + 1)
  {
    var before := ids[..|ids| - 1];
    if i < |before| {
      ScoreAtRank(k, before, i);
      assert before[i] == ids[i];
    } else {
      ScoreAbsent(k, before, ids[i]);
    }
  }

  lemma InverseFalls(m: nat, n: nat)
    requires 1 <= m < n
    ensures Inverse(m) > Inverse(n) > 0.0
  {
    var x, y := m as real, n as real;
    assert Inverse(m) - Inverse(n) == (y - x) / (x * y) by {
      assert Inverse(m) * x == 1.0 && Inverse(n) * y == 1.0;
    }
  }

  /** In duplicate-free lists, an id above another one in both lists is ranked above it. */
  lemma DominanceIsKept(k: nat, vec: seq<string>, bm: seq<string>, a: string, b: string, i: nat, j: nat)
    requires Distinct(vec) && Distinct(bm) && a in vec && b in vec && a in bm && b in bm
    requires IndexOf(vec, a) < IndexOf(vec, b) && IndexOf(bm, a) < IndexOf(bm, b)
    requires i < |Ranking(k, vec, bm)| && j < |Ranking(k, vec, bm)| && Ranking(k, vec, bm)[i] == a && Ranking(k, vec, bm)[j] == b
    ensures i < j
  {
    HigherRankScoresMore(k, vec, a, b);
    HigherRankScoresMore(k, bm, a, b);
    FusedIsRanking(k, vec, bm, 0.0);
  }

  lemma HigherRankScoresMore(k: nat, ids: seq<string>, a: string, b: string)
    requires Distinct(ids) && a in ids && b in ids && IndexOf(ids, a) < IndexOf(ids, b)
    ensures Score(k, ids, a) > Score(k, ids, b)
  {
    ScoreAtRank(k, ids, IndexOf(ids, a));
    ScoreAtRank(k, ids, IndexOf(ids, b));
    InverseFalls(k + IndexOf(ids, a) + 1, k + IndexOf(ids, b) + 1);
  }

  // ----- When agreement wins -----

  /** Two shares of rank n against one share of rank 1. */
  lemma TwoAgainstOne(k: nat, n: nat)
    requires n >= 1
    ensures Inverse(k + n) + Inverse(k + n) > Inverse(k + 1) <==> n < k + 2
  {
    var a, b := (k + n) as real, (k + 1) as real;
    var x, y := Inverse(k + n), Inverse(k + 1);
    assert x * a == 1.0 && y * b == 1.0;
    DoubleCompare(a, b, x, y);
    assert 2.0 * b > a <==> n < k + 2;
  }

  lemma DoubleCompare(a: real, b: real, x: real, y: real)
    requires a > 0.0 && b > 0.0 && x > 0.0 && y > 0.0 && x * a == 1.0 && y * b == 1.0
    ensures x + x > y <==> 2.0 * b > a
  {
    assert (x + x) * (a * b) == 2.0 * b by {
      assert (x + x) * (a * b) == 2.0 * (x * a) * b;
    }
    assert y * (a * b) == a by {
      assert y * (a * b) == (y * b) * a;
    }
    assert a * b > 0.0;
  }

  ghost predicate InBoth(vec: seq<string>, bm: seq<string>, id: string) {
    id in vec && id in bm
  }

  ghost predicate InOne(vec: seq<string>, bm: seq<string>, id: string) {
    (id in vec && id !in bm) || (id !in vec && id in bm)
  }

  lemma ScoreBetween(k: nat, ids: seq<string>, id: string, n: nat)
    requires Distinct(ids) && id in ids && |ids| <= n
    ensures Inverse(k + n) <= Score(k, ids, id) <= Inverse(k + 1)
  {
    var i := IndexOf(ids, id);
    ScoreAtRank(k, ids, i);
    if i + 1 < n { InverseFalls(k + i + 1, k + n); }
    if i > 0 { InverseFalls(k + 1, k + i + 1); }
  }

  lemma AgreementScoresHigher(k: nat, vec: seq<string>, bm: seq<string>, both: string, one: string, n: nat)
    requires Distinct(vec) && Distinct(bm) && |vec| <= n && |bm| <= n && n < k + 2
    requires InBoth(vec, bm, both) && InOne(vec, bm, one)
    ensures Total(k, vec, bm, both) > Total(k, vec, bm, one)
  {
    ScoreBetween(k, vec, both, n);
    ScoreBetween(k, bm, both, n);
    TwoAgainstOne(k, n);
    if one in vec {
      ScoreBetween(k, vec, one, n);
      ScoreAbsent(k, bm, one);
    } else {
      ScoreBetween(k, bm, one, n);
      ScoreAbsent(k, vec, one);
    }
  }

  /** In duplicate-free lists of at most n < k + 2 ids (50 and 60 by default), every id that is
      in both lists is ranked above every id that is in only one. */
  lemma AgreementIsRankedFirst(k: nat, vec: seq<string>, bm: seq<string>, n: nat, i: nat, j: nat)
    requires Distinct(vec) && Distinct(bm) && |vec| <= n && |bm| <= n && n < k + 2
    requires i < |Ranking(k, vec, bm)| && j < |Ranking(k, vec, bm)|
    requires InBoth(vec, bm, Ranking(k, vec, bm)[i]) && InOne(vec, bm, Ranking(k, vec, bm)[j])
    ensures i < j
  {
    AgreementScoresHigher(k, vec, bm, Ranking(k, vec, bm)[i], Ranking(k, vec, bm)[j], n);
    FusedIsRanking(k, vec, bm, 0.0);
  }

  /** Agreement wins over all duplicate-free lists of at most n ids. */
  ghost predicate AgreementWins(k: nat, n: nat) {
    forall vec, bm, both, one ::
      Distinct(vec) && Distinct(bm) && |vec| <= n && |bm| <= n && InBoth(vec, bm, both) && InOne(vec, bm, one) ==>
        Total(k, vec, bm, both) > Total(k, vec, bm, one)
  }

  function Name(n: nat): string {
    seq(n, _ => 'x')
  }

  /** n names from number first on, except that the last one is the given id. */
  function NamesEndingWith(first: nat, n: nat, last: nat): (r: seq<string>)
    requires n >= 1
    ensures |r| == n && forall i :: 0 <= i < n ==> r[i] == Name(if i == n - 1 then last else first + i)
  {
    seq(n, i requires 0 <= i < n => Name(if i == n - 1 then last else first + i))
  }

  /** The bound is sharp: agreement wins over all lists of at most n ids exactly when n < k + 2.
      From there on an id at rank n of both lists does not beat one at rank 1 of one list. */
  lemma AgreementThreshold(k: nat, n: nat)
    requires n >= 2
    ensures AgreementWins(k, n) <==> n < k + 2
  {
    if n < k + 2 {
      forall vec, bm, both, one |
        Distinct(vec) && Distinct(bm) && |vec| <= n && |bm| <= n && InBoth(vec, bm, both) && InOne(vec, bm, one)
        ensures Total(k, vec, bm, both) > Total(k, vec, bm, one)
      {
        AgreementScoresHigher(k, vec, bm, both, one, n);
      }
    } else {
      var vec, bm := NamesEndingWith(0, n, n - 1), NamesEndingWith(n, n, n - 1);
      var both, one := Name(n - 1), Name(0);
      ScoreAtRank(k, vec, n - 1);
      ScoreAtRank(k, bm, n - 1);
      ScoreAtRank(k, vec, 0);
      assert forall i :: 0 <= i < n ==> |bm[i]| > |one|;
      ScoreAbsent(k, bm, one);
      TwoAgainstOne(k, n);
      assert vec[n - 1] == both && bm[n - 1] == both && vec[0] == one;
      assert InBoth(vec, bm, both) && InOne(vec, bm, one);
      assert !(Total(k, vec, bm, both) > Total(k, vec, bm, one));
    }
  }

  // ----- Paging -----

  /** xs[a:b] with the bounds clipped to the list. */
  function Clip<T>(xs: seq<T>, a: nat, b: nat): seq<T> {
    if a < b && a < |xs| then xs[a..if b < |xs| then b else |xs|] else []
  }

  /** The hits on one page; page numbers below 1 mean the first page. */
  function Page<T>(results: seq<T>, page: int, size: nat): seq<T> {
    var p := if page < 1 then 1 else page;
    Clip(results, (p - 1) * size, (p - 1) * size + size)
  }

  function PagesUpTo<T>(results: seq<T>, n: nat, size: nat): seq<T> {
    if n == 0 then [] else PagesUpTo(results, n - 1, size) + Page(results, n, size)
  }

  lemma ClipExtends<T>(results: seq<T>, a: nat, b: nat)
    requires a <= b
    ensures Clip(results, 0, a) + Clip(results, a, b) == Clip(results, 0, b)
  {
    if a == 0 {
      assert Clip(results, 0, 0) == [];
    }
  }

  /** The pages tile the results: the first n of them in order are the first n * size results. */
  lemma {:induction false} PagesTile<T>(results: seq<T>, n: nat, size: nat)
    ensures PagesUpTo(results, n, size) == Clip(results, 0, n * size)
  {
    if n > 0 {
      PagesTile(results, n - 1, size);
      assert n * size == (n - 1) * size + size;
      ClipExtends(results, (n - 1) * size, n * size);
    }
  }

  /** What a hybrid search returns for a page, and the total it reports. */
  function SearchPage(fused: seq<Hit>, finalTopK: nat, page: int, size: nat): (seq<Hit>, nat) {
    (Page(Clip(fused, 0, finalTopK), page, size), |fused|)
  }

  const DEFAULT_TOP_K: nat := 10

  /** A hybrid search on the two result lists, without reranking. */
  method Search(vec: seq<Hit>, bm: seq<Hit>, k: nat, mergedTopK: nat, topK: Option<nat>, page: int, size: nat)
      returns (hits: seq<Hit>, total: nat)
    ensures (hits, total) == SearchPage(Clip(Fused(k, vec, bm), 0, mergedTopK), OrDefault(topK, DEFAULT_TOP_K), page, size)
  {
    var finalTopK := OrDefault(topK, DEFAULT_TOP_K);
    var all := Fuse(vec, bm, k);
    var fused := Clip(all, 0, mergedTopK);
    total := |fused|;
    hits := Page(Clip(fused, 0, finalTopK), page, size);
  }

  /** The hits that a search returns on pages 1 to n, put together. */
  function HitsUpTo(fused: seq<Hit>, finalTopK: nat, n: nat, size: nat): seq<Hit> {
    if n == 0 then [] else HitsUpTo(fused, finalTopK, n - 1, size) + SearchPage(fused, finalTopK, n, size).0
  }

  lemma {:induction false} HitsArePages(fused: seq<Hit>, finalTopK: nat, n: nat, size: nat)
    ensures HitsUpTo(fused, finalTopK, n, size) == PagesUpTo(Clip(fused, 0, finalTopK), n, size)
  {
    if n > 0 {
      HitsArePages(fused, finalTopK, n - 1, size);
    }
  }

  /** The hits returned on enough pages, put together, are exactly the first finalTopK fused hits, each
      once and in order. */
  lemma AllHitsAreTopK(fused: seq<Hit>, finalTopK: nat, n: nat, size: nat)
    requires n * size >= finalTopK || n * size >= |fused|
    ensures HitsUpTo(fused, finalTopK, n, size) == fused[..if finalTopK < |fused| then finalTopK else |fused|]
  {
    HitsArePages(fused, finalTopK, n, size);
    PagesTile(Clip(fused, 0, finalTopK), n, size);
    ClipIsPrefix(fused, finalTopK);
    ClipIsPrefix(Clip(fused, 0, finalTopK), n * size);
  }

  lemma ClipIsPrefix<T>(xs: seq<T>, n: nat)
    ensures Clip(xs, 0, n) == xs[..if n < |xs| then n else |xs|]
  {
  }

  /** Hit i of a page stands at its place in the ranking, and no page shows a hit past finalTopK. */
  lemma PageShows(fused: seq<Hit>, finalTopK: nat, page: nat, size: nat, i: nat)
    requires page >= 1
    ensures var hits, at := SearchPage(fused, finalTopK, page, size).0, (page - 1) * size + i;
            && (i < |hits| <==> i < size && at < finalTopK && at < |fused|)
            && (i < |hits| ==> hits[i] == fused[at])
  {
    ClipIsPrefix(fused, finalTopK);
    ClipShows(Clip(fused, 0, finalTopK), (page - 1) * size, size, i);
  }

  lemma ClipShows<T>(xs: seq<T>, start: nat, size: nat, i: nat)
    ensures i < |Clip(xs, start, start + size)| <==> i < size && start + i < |xs|
    ensures i < |Clip(xs, start, start + size)| ==> Clip(xs, start, start + size)[i] == xs[start + i]
  {
  }

  /** So the total that is reported, on whatever page, is the number of hits that can be reached exactly
      when the fused list was not longer than finalTopK. */
  lemma TotalIsReachableIff(fused: seq<Hit>, finalTopK: nat, n: nat, size: nat)
    requires n * size >= |fused|
    ensures |HitsUpTo(fused, finalTopK, n, size)| == SearchPage(fused, finalTopK, 1, size).1 <==> |fused| <= finalTopK
  {
    AllHitsAreTopK(fused, finalTopK, n, size);
  }
}
