/** The embedding client: a cache in front of a batch API. */
module Embedding {
  import opened Options
  import opened Text

  type Vector = seq<real>

  const MAX_CHARS: nat := 2048

  function Truncate(text: string): string {
    if |text| <= MAX_CHARS then text else text[..MAX_CHARS]
  }

  function Zero(dim: nat): Vector {
    seq(dim, _ => 0.0)
  }

  // ----- What the batch path computes, for any API -----

  /** The answers of the API to the texts, cut into batches, put together. */
  function BatchAnswers(api: seq<string> -> seq<Vector>, texts: seq<string>, size: nat): seq<Vector>
    requires size >= 1
  {
    if |texts| <= size then (if texts == [] then [] else api(texts))
    else api(texts[..size]) + BatchAnswers(api, texts[size..], size)
  }

  /** The vector text number j of the batch path ends up with. */
  function Answer(vectors: seq<Vector>, dim: nat, j: nat): Vector {
    if j < |vectors| then vectors[j] else Zero(dim)
  }

  /** How many batches there are. */
  function BatchCount(n: nat, size: nat): nat
    requires size >= 1
  {
    if n == 0 then 0 else if n <= size then 1 else 1 + BatchCount(n - size, size)
  }

  /** The number of batches is n / size rounded up. */
  lemma {:induction false} BatchCountIsCeiling(n: nat, size: nat)
    requires size >= 1
    ensures BatchCount(n, size) * size >= n
    ensures n > 0 ==> (BatchCount(n, size) - 1) * size < n
  {
    if n > size {
      BatchCountIsCeiling(n - size, size);
      assert BatchCount(n, size) * size == BatchCount(n - size, size) * size + size;
      assert (BatchCount(n, size) - 1) * size == (BatchCount(n - size, size) - 1) * size + size;
    }
  }

  /** The API answers each text on its own, one vector a text. */
  ghost predicate Pointwise(api: seq<string> -> seq<Vector>, embed: string -> Vector) {
    forall texts :: |api(texts)| == |texts| && forall i :: 0 <= i < |texts| ==> api(texts)[i] == embed(texts[i])
  }

  lemma {:induction false} BatchAnswersArePointwise(api: seq<string> -> seq<Vector>, embed: string -> Vector, texts: seq<string>, size: nat)
    requires size >= 1 && Pointwise(api, embed)
    ensures var r := BatchAnswers(api, texts, size);
            |r| == |texts| && forall i :: 0 <= i < |texts| ==> r[i] == embed(texts[i])
    decreases |texts|
  {
    if |texts| > size {
      BatchAnswersArePointwise(api, embed, texts[size..], size);
      var r, first, rest := BatchAnswers(api, texts, size), api(texts[..size]), BatchAnswers(api, texts[size..], size);
      assert |first| == size;
      forall i | 0 <= i < |texts|
        ensures r[i] == embed(texts[i])
      {
        if i < size {
          assert r[i] == first[i] && texts[..size][i] == texts[i];
        } else {
          assert r[i] == rest[i - size] && texts[size..][i - size] == texts[i];
        }
      }
    }
  }

  // ----- When the API leaves batches unanswered -----

  /** The API answers a list of texts with nothing, or with one vector a text. */
  ghost predicate PointwiseOrEmpty(api: seq<string> -> seq<Vector>, embed: string -> Vector) {
    forall texts :: api(texts) == [] || Faithful(api(texts), embed, texts)
  }

  ghost predicate Faithful(vectors: seq<Vector>, embed: string -> Vector, texts: seq<string>) {
    |vectors| == |texts| && forall i :: 0 <= i < |texts| ==> vectors[i] == embed(texts[i])
  }

  /** Every batch gets an answer. */
  predicate AllAnswered(api: seq<string> -> seq<Vector>, texts: seq<string>, size: nat)
    requires size >= 1
  {
    if texts == [] then true
    else if |texts| <= size then api(texts) != []
    else api(texts[..size]) != [] && AllAnswered(api, texts[size..], size)
  }

  /** The texts of the batches that get an answer. */
  function AnsweredTexts(api: seq<string> -> seq<Vector>, texts: seq<string>, size: nat): seq<string>
    requires size >= 1
  {
    if texts == [] then []
    else if |texts| <= size then (if api(texts) == [] then [] else texts)
    else
      var rest := AnsweredTexts(api, texts[size..], size);
      if api(texts[..size]) == [] then rest else texts[..size] + rest
  }

  lemma FaithfulConcat(v: seq<Vector>, w: seq<Vector>, embed: string -> Vector, a: seq<string>, b: seq<string>)
    requires Faithful(v, embed, a) && Faithful(w, embed, b)
    ensures Faithful(v + w, embed, a + b)
  {
  }

  /** What is collected are the embeddings of the answered texts, moved together: after an
      unanswered batch every vector stands in front of its place. */
  lemma {:induction false} AnswersMoveUp(api: seq<string> -> seq<Vector>, embed: string -> Vector, texts: seq<string>, size: nat)
    requires size >= 1 && PointwiseOrEmpty(api, embed)
    ensures Faithful(BatchAnswers(api, texts, size), embed, AnsweredTexts(api, texts, size))
    decreases |texts|
  {
    if |texts| > size {
      AnswersMoveUp(api, embed, texts[size..], size);
      var rest, restTexts := BatchAnswers(api, texts[size..], size), AnsweredTexts(api, texts[size..], size);
      if api(texts[..size]) == [] {
        assert BatchAnswers(api, texts, size) == rest;
      } else {
        FaithfulConcat(api(texts[..size]), rest, embed, texts[..size], restTexts);
      }
    }
  }

  lemma {:induction false} AnsweredTextsAll(api: seq<string> -> seq<Vector>, texts: seq<string>, size: nat)
    requires size >= 1
    ensures |AnsweredTexts(api, texts, size)| <= |texts|
    ensures |AnsweredTexts(api, texts, size)| == |texts| <==> AllAnswered(api, texts, size)
    ensures AllAnswered(api, texts, size) ==> AnsweredTexts(api, texts, size) == texts
    decreases |texts|
  {
    if |texts| > size {
      AnsweredTextsAll(api, texts[size..], size);
      assert texts == texts[..size] + texts[size..];
    }
  }

  ghost predicate NeverZero(embed: string -> Vector, dim: nat) {
    forall text :: embed(text) != Zero(dim)
  }

  /** When every batch is answered each text has its own vector; otherwise the last has not. */
  lemma OwnVectorsIff(api: seq<string> -> seq<Vector>, embed: string -> Vector, texts: seq<string>, size: nat, dim: nat)
    requires size >= 1 && PointwiseOrEmpty(api, embed)
    ensures var r := BatchAnswers(api, texts, size);
            if AllAnswered(api, texts, size) then Faithful(r, embed, texts)
            else texts != [] && Answer(r, dim, |texts| - 1) == Zero(dim)
  {
    AnswersMoveUp(api, embed, texts, size);
    AnsweredTextsAll(api, texts, size);
  }

  // ----- The client as functions -----

  /** What a client is built with, and the API behind it. */
  datatype Setup = Setup(hasRedis: bool, dim: nat, batchSize: nat, key: string -> string, api: seq<string> -> seq<Vector>)

  /** The cache answers for a text: the store can be reached and has an entry. */
  predicate Hit(u: Setup, cache: map<string, Vector>, text: string, reachable: bool) {
    u.hasRedis && reachable && u.key(Truncate(text)) in cache
  }

  function SingleVector(u: Setup, cache: map<string, Vector>, text: string, reachable: bool): Vector {
    if Hit(u, cache, text, reachable) then cache[u.key(Truncate(text))] else Answer(u.api([Truncate(text)]), u.dim, 0)
  }

  function CacheAfterSingle(u: Setup, cache: map<string, Vector>, text: string, reachable: bool): map<string, Vector> {
    if Hit(u, cache, text, reachable) || !u.hasRedis then cache
    else cache[u.key(Truncate(text)) := SingleVector(u, cache, text, reachable)]
  }

  /** The indices among the first n that the cache does not answer for. */
  function Uncached(u: Setup, cache: map<string, Vector>, texts: seq<string>, reachable: nat -> bool, n: nat): (r: seq<nat>)
    requires n <= |texts|
    ensures forall j :: 0 <= j < |r| ==> r[j] < n
  {
    if n == 0 then []
    else
      var before := Uncached(u, cache, texts, reachable, n - 1);
      if Hit(u, cache, texts[n - 1], reachable(n - 1)) then before else before + [n - 1]
  }

  function TextsAt(texts: seq<string>, indices: seq<nat>): (r: seq<string>)
    requires forall j :: 0 <= j < |indices| ==> indices[j] < |texts|
    ensures |r| == |indices| && forall j :: 0 <= j < |indices| ==> r[j] == Truncate(texts[indices[j]])
  {
    seq(|indices|, j requires 0 <= j < |indices| => Truncate(texts[indices[j]]))
  }

  lemma TextsAtSnoc(texts: seq<string>, indices: seq<nat>, i: nat)
    requires i < |texts| && forall j :: 0 <= j < |indices| ==> indices[j] < |texts|
    ensures TextsAt(texts, indices + [i]) == TextsAt(texts, indices) + [Truncate(texts[i])]
  {
  }

  /** The truncated texts that go to the API. */
  function Missing(u: Setup, cache: map<string, Vector>, texts: seq<string>, reachable: nat -> bool): seq<string> {
    TextsAt(texts, Uncached(u, cache, texts, reachable, |texts|))
  }

  function Vectors(u: Setup, cache: map<string, Vector>, texts: seq<string>, reachable: nat -> bool): seq<Vector>
    requires u.batchSize >= 1
  {
    BatchAnswers(u.api, Missing(u, cache, texts, reachable), u.batchSize)
  }

  /** The vector of text i: the cached one, or the one at the text's place among the uncached. */
  function BatchVector(u: Setup, cache: map<string, Vector>, texts: seq<string>, reachable: nat -> bool, i: nat): Vector
    requires u.batchSize >= 1 && i < |texts|
  {
    if Hit(u, cache, texts[i], reachable(i)) then cache[u.key(Truncate(texts[i]))]
    else Answer(Vectors(u, cache, texts, reachable), u.dim, |Uncached(u, cache, texts, reachable, i)|)
  }

  /** The cache after the first n answers have been stored under their texts' keys. */
  function Stored(u: Setup, cache: map<string, Vector>, texts: seq<string>, vectors: seq<Vector>, n: nat): map<string, Vector>
    requires n <= |texts|
  {
    if n == 0 || !u.hasRedis then cache
    else Stored(u, cache, texts, vectors, n - 1)[u.key(texts[n - 1]) := Answer(vectors, u.dim, n - 1)]
  }

  function CacheAfterBatch(u: Setup, cache: map<string, Vector>, texts: seq<string>, reachable: nat -> bool): map<string, Vector>
    requires u.batchSize >= 1
  {
    var missing := Missing(u, cache, texts, reachable);
    Stored(u, cache, missing, Vectors(u, cache, texts, reachable), |missing|)
  }

  /** An uncached index stands at the place that counts the uncached ones before it. */
  lemma {:induction false} UncachedAt(u: Setup, cache: map<string, Vector>, texts: seq<string>, reachable: nat -> bool, i: nat, n: nat)
    requires i < n <= |texts| && !Hit(u, cache, texts[i], reachable(i))
    ensures var all, place := Uncached(u, cache, texts, reachable, n), |Uncached(u, cache, texts, reachable, i)|;
            place < |all| && all[place] == i
    decreases n
  {
    if i < n - 1 {
      UncachedAt(u, cache, texts, reachable, i, n - 1);
    }
  }

  lemma {:induction false} PlaceOfUncached(u: Setup, cache: map<string, Vector>, texts: seq<string>, reachable: nat -> bool, n: nat, j: nat)
    requires n <= |texts| && j < |Uncached(u, cache, texts, reachable, n)|
    ensures var i := Uncached(u, cache, texts, reachable, n)[j];
            !Hit(u, cache, texts[i], reachable(i)) && |Uncached(u, cache, texts, reachable, i)| == j
  {
    if j < |Uncached(u, cache, texts, reachable, n - 1)| {
      PlaceOfUncached(u, cache, texts, reachable, n - 1, j);
    }
  }

  // ----- The client as it is written -----

  class EmbeddingClient {
    const hasRedis: bool
    const dim: nat
    const batchSize: nat
    const key: string -> string
    var cache: map<string, Vector>
    var calls: nat

    constructor (hasRedis: bool, dim: nat, batchSize: nat, key: string -> string, cache: map<string, Vector>)
      ensures this.hasRedis == hasRedis && this.dim == dim && this.batchSize == batchSize && this.key == key
      ensures this.cache == cache && calls == 0
    {
      this.hasRedis, this.dim, this.batchSize, this.key := hasRedis, dim, batchSize, key;
      this.cache, calls := cache, 0;
    }

    function With(api: seq<string> -> seq<Vector>): Setup {
      Setup(hasRedis, dim, batchSize, key, api)
    }

    /** reachable: the store answers and the entry has not expired. */
    method CacheGet(k: string, reachable: bool) returns (r: Option<Vector>)
      ensures r == if hasRedis && reachable && k in cache then Some(cache[k]) else None
    {
      if !hasRedis || !reachable || k !in cache {
        return None;
      }
      r := Some(cache[k]);
    }

    method CacheSet(k: string, v: Vector)
      modifies this`cache
      ensures cache == if hasRedis then old(cache)[k := v] else old(cache)
    {
      if hasRedis {
        cache := cache[k := v];
      }
    }

    method EmbedSingle(text: string, api: seq<string> -> seq<Vector>, reachable: bool) returns (r: Vector)
      modifies this
      ensures r == SingleVector(With(api), old(cache), text, reachable)
      ensures cache == CacheAfterSingle(With(api), old(cache), text, reachable)
      ensures calls == old(calls) + if Hit(With(api), old(cache), text, reachable) then 0 else 1
    {
      var truncated := Truncate(text);
      var k := key(truncated);
      var cached := CacheGet(k, reachable);
      if cached.Some? {
        return cached.value;
      }
      var vec := api([truncated]);
      calls := calls + 1;
      r := if vec != [] then vec[0] else Zero(dim);
      CacheSet(k, r);
    }

    /** Any API and any keys: the results, the cache and the number of calls. */
    method EmbedBatch(texts: seq<string>, api: seq<string> -> seq<Vector>, reachable: nat -> bool) returns (results: seq<Vector>)
      requires batchSize >= 1
      modifies this
      ensures |results| == |texts|
      ensures forall i :: 0 <= i < |texts| ==> results[i] == BatchVector(With(api), old(cache), texts, reachable, i)
      ensures cache == CacheAfterBatch(With(api), old(cache), texts, reachable)
      ensures calls == old(calls) + BatchCount(|Missing(With(api), old(cache), texts, reachable)|, batchSize)
    {
      ghost var u, c := With(api), cache;
      var uncachedTexts, uncachedIndices;
      results, uncachedTexts, uncachedIndices := LookUp(texts, api, reachable);
      if uncachedTexts == [] {
        NothingMissing(u, c, texts, reachable);
        return;
      }
      var allVectors := CallInBatches(uncachedTexts, api);
      PlacesAreUncached(u, c, texts, reachable);
      results := FillIn(results, uncachedTexts, uncachedIndices, allVectors, api);
      forall i | 0 <= i < |texts|
        ensures results[i] == BatchVector(u, c, texts, reachable, i)
      {
        if !Hit(u, c, texts[i], reachable(i)) {
          UncachedAt(u, c, texts, reachable, i, |texts|);
        }
      }
    }

    /** Step one: look every text up, and put a placeholder where the cache has no answer. */
    method LookUp(texts: seq<string>, api: seq<string> -> seq<Vector>, reachable: nat -> bool)
        returns (results: seq<Vector>, uncachedTexts: seq<string>, uncachedIndices: seq<nat>)
      ensures |results| == |texts|
      ensures forall i :: 0 <= i < |texts| && Hit(With(api), cache, texts[i], reachable(i)) ==> results[i] == cache[key(Truncate(texts[i]))]
      ensures uncachedIndices == Uncached(With(api), cache, texts, reachable, |texts|)
      ensures uncachedTexts == Missing(With(api), cache, texts, reachable)
    {
      results, uncachedTexts, uncachedIndices := [], [], [];
      ghost var u := With(api);
      for i := 0 to |texts|
        invariant |results| == i
        invariant forall k :: 0 <= k < i && Hit(u, cache, texts[k], reachable(k)) ==> results[k] == cache[key(Truncate(texts[k]))]
        invariant uncachedIndices == Uncached(u, cache, texts, reachable, i)
        invariant uncachedTexts == TextsAt(texts, uncachedIndices)
      {
        var text := Truncate(texts[i]);
        var cached := CacheGet(key(text), reachable(i));
        if cached.Some? {
          results := results + [cached.value];
        } else {
          TextsAtSnoc(texts, uncachedIndices, i);
          results := results + [[]];
          uncachedTexts := uncachedTexts + [text];
          uncachedIndices := uncachedIndices + [i];
        }
      }
    }

    /** Step three: put the answers where the placeholders are, and into the cache. */
    method FillIn(placeholders: seq<Vector>, uncachedTexts: seq<string>, uncachedIndices: seq<nat>, allVectors: seq<Vector>,
                  api: seq<string> -> seq<Vector>)
        returns (results: seq<Vector>)
      requires |uncachedTexts| == |uncachedIndices|
      requires forall j :: 0 <= j < |uncachedIndices| ==> uncachedIndices[j] < |placeholders|
      requires forall i, j :: 0 <= i < j < |uncachedIndices| ==> uncachedIndices[i] != uncachedIndices[j]
      modifies this`cache
      ensures |results| == |placeholders|
      ensures forall n :: 0 <= n < |results| && n !in uncachedIndices ==> results[n] == placeholders[n]
      ensures forall j :: 0 <= j < |uncachedIndices| ==> results[uncachedIndices[j]] == Answer(allVectors, dim, j)
      ensures cache == Stored(With(api), old(cache), uncachedTexts, allVectors, |uncachedTexts|)
    {
      results := placeholders;
      for j := 0 to |uncachedIndices|
        invariant |results| == |placeholders|
        invariant forall n :: 0 <= n < |results| && n !in uncachedIndices ==> results[n] == placeholders[n]
        invariant forall i :: 0 <= i < j ==> results[uncachedIndices[i]] == Answer(allVectors, dim, i)
        invariant cache == Stored(With(api), old(cache), uncachedTexts, allVectors, j)
      {
        var idx := uncachedIndices[j];
        var vec := Answer(allVectors, dim, j);
        results := results[idx := vec];
        CacheSet(key(uncachedTexts[j]), vec);
      }
    }

    method CallInBatches(texts: seq<string>, api: seq<string> -> seq<Vector>) returns (vectors: seq<Vector>)
      requires batchSize >= 1
      modifies this`calls
      ensures vectors == BatchAnswers(api, texts, batchSize)
      ensures calls == old(calls) + BatchCount(|texts|, batchSize)
    {
      vectors := [];
      var start := 0;
      ghost var rest, expected := texts, BatchAnswers(api, texts, batchSize);
      while start < |texts|
        invariant if start < |texts| then IsRest(rest, texts, start) else rest == []
        invariant Remains(expected, vectors, BatchAnswers(api, rest, batchSize))
        invariant calls + BatchCount(|rest|, batchSize) == old(calls) + BatchCount(|texts|, batchSize)
      {
        var batch := texts[start..if start + batchSize <= |texts| then start + batchSize else |texts|];
        ghost var later := AfterBatch(rest, batchSize);
        BatchStep(api, rest, texts, start, batchSize);
        Advance(expected, vectors, api(batch), BatchAnswers(api, later, batchSize));
        vectors := vectors + api(batch);
        calls := calls + 1;
        start := start + batchSize;
        rest := later;
      }
      NothingRemains(expected, vectors);
    }
  }

  ghost predicate IsRest(rest: seq<string>, texts: seq<string>, start: nat) {
    start + |rest| == |texts| && forall k :: 0 <= k < |rest| ==> rest[k] == texts[start + k]
  }

  function AfterBatch(rest: seq<string>, size: nat): seq<string> {
    if size < |rest| then rest[size..] else []
  }

  lemma BatchStep(api: seq<string> -> seq<Vector>, rest: seq<string>, texts: seq<string>, start: nat, size: nat)
    requires size >= 1 && start < |texts| && IsRest(rest, texts, start)
    ensures var batch := texts[start..if start + size <= |texts| then start + size else |texts|];
            && BatchAnswers(api, rest, size) == api(batch) + BatchAnswers(api, AfterBatch(rest, size), size)
            && BatchCount(|rest|, size) == 1 + BatchCount(|AfterBatch(rest, size)|, size)
    ensures start + size < |texts| ==> IsRest(AfterBatch(rest, size), texts, start + size)
  {
    var batch := texts[start..if start + size <= |texts| then start + size else |texts|];
    assert batch == if size < |rest| then rest[..size] else rest;
  }

  lemma NothingMissing(u: Setup, cache: map<string, Vector>, texts: seq<string>, reachable: nat -> bool)
    requires Missing(u, cache, texts, reachable) == []
    ensures forall i :: 0 <= i < |texts| ==> Hit(u, cache, texts[i], reachable(i))
  {
    forall i | 0 <= i < |texts|
      ensures Hit(u, cache, texts[i], reachable(i))
    {
      if !Hit(u, cache, texts[i], reachable(i)) {
        UncachedAt(u, cache, texts, reachable, i, |texts|);
      }
    }
  }

  /** The uncached indices are distinct, and the cache answers for the others. */
  lemma PlacesAreUncached(u: Setup, cache: map<string, Vector>, texts: seq<string>, reachable: nat -> bool)
    ensures var all := Uncached(u, cache, texts, reachable, |texts|);
            && (forall i, j :: 0 <= i < j < |all| ==> all[i] != all[j])
            && (forall i :: 0 <= i < |texts| && Hit(u, cache, texts[i], reachable(i)) ==> i !in all)
  {
    var all := Uncached(u, cache, texts, reachable, |texts|);
    forall j | 0 <= j < |all|
      ensures !Hit(u, cache, texts[all[j]], reachable(all[j])) && |Uncached(u, cache, texts, reachable, all[j])| == j
    {
      PlaceOfUncached(u, cache, texts, reachable, |texts|, j);
    }
  }

  // ----- What the client promises -----

  ghost predicate Injective(key: string -> string) {
    forall a, b :: key(a) == key(b) ==> a == b
  }

  /** Whatever the cache holds for a text is that text's embedding. */
  ghost predicate Coherent(cache: map<string, Vector>, key: string -> string, embed: string -> Vector) {
    forall text :: key(text) in cache ==> cache[key(text)] == embed(text)
  }

  /** Every text gets the embedding of its truncation. */
  ghost predicate AllOwn(u: Setup, cache: map<string, Vector>, texts: seq<string>, reachable: nat -> bool, embed: string -> Vector)
    requires u.batchSize >= 1
  {
    forall i :: 0 <= i < |texts| ==> BatchVector(u, cache, texts, reachable, i) == embed(Truncate(texts[i]))
  }

  /** Embedding one text with a coherent cache and an API that embeds it. */
  lemma SingleIsEmbedding(u: Setup, cache: map<string, Vector>, text: string, reachable: bool, embed: string -> Vector)
    requires Coherent(cache, u.key, embed) && Pointwise(u.api, embed)
    ensures SingleVector(u, cache, text, reachable) == embed(Truncate(text))
    ensures Injective(u.key) ==> Coherent(CacheAfterSingle(u, cache, text, reachable), u.key, embed)
  {
    assert [Truncate(text)][0] == Truncate(text);
  }

  lemma AnsweredIsOwn(u: Setup, cache: map<string, Vector>, texts: seq<string>, reachable: nat -> bool, embed: string -> Vector)
    requires u.batchSize >= 1 && Coherent(cache, u.key, embed)
    requires Faithful(Vectors(u, cache, texts, reachable), embed, Missing(u, cache, texts, reachable))
    ensures AllOwn(u, cache, texts, reachable, embed)
  {
    forall i | 0 <= i < |texts|
      ensures BatchVector(u, cache, texts, reachable, i) == embed(Truncate(texts[i]))
    {
      if !Hit(u, cache, texts[i], reachable(i)) {
        UncachedAt(u, cache, texts, reachable, i, |texts|);
      }
    }
  }

  /** The last uncached text gets the last answer there is a place for. */
  lemma LastUncached(u: Setup, cache: map<string, Vector>, texts: seq<string>, reachable: nat -> bool) returns (i: nat)
    requires u.batchSize >= 1 && Missing(u, cache, texts, reachable) != []
    ensures var missing := Missing(u, cache, texts, reachable);
            && i < |texts|
            && BatchVector(u, cache, texts, reachable, i) == Answer(Vectors(u, cache, texts, reachable), u.dim, |missing| - 1)
  {
    var all := Uncached(u, cache, texts, reachable, |texts|);
    i := all[|all| - 1];
    PlaceOfUncached(u, cache, texts, reachable, |texts|, |all| - 1);
  }

  /** If the API answers each batch pointwise or not at all, and no text's embedding is the zero
      vector, then every text gets its own embedding exactly when every batch is answered. */
  lemma OwnExactlyWhenAnswered(u: Setup, cache: map<string, Vector>, texts: seq<string>, reachable: nat -> bool, embed: string -> Vector)
    requires u.batchSize >= 1 && Coherent(cache, u.key, embed) && PointwiseOrEmpty(u.api, embed) && NeverZero(embed, u.dim)
    ensures AllOwn(u, cache, texts, reachable, embed) <==> AllAnswered(u.api, Missing(u, cache, texts, reachable), u.batchSize)
  {
    var missing := Missing(u, cache, texts, reachable);
    OwnVectorsIff(u.api, embed, missing, u.batchSize, u.dim);
    if AllAnswered(u.api, missing, u.batchSize) {
      AnsweredIsOwn(u, cache, texts, reachable, embed);
    } else {
      var i := LastUncached(u, cache, texts, reachable);
      assert BatchVector(u, cache, texts, reachable, i) != embed(Truncate(texts[i]));
    }
  }

  lemma {:induction false} StoredCoherent(u: Setup, cache: map<string, Vector>, texts: seq<string>, vectors: seq<Vector>, n: nat, embed: string -> Vector)
    requires n <= |texts| && Injective(u.key) && Coherent(cache, u.key, embed) && Faithful(vectors, embed, texts)
    ensures Coherent(Stored(u, cache, texts, vectors, n), u.key, embed)
    ensures cache.Keys <= Stored(u, cache, texts, vectors, n).Keys
  {
    if n > 0 && u.hasRedis {
      StoredCoherent(u, cache, texts, vectors, n - 1, embed);
    }
  }

  /** With a store, the cache stays coherent exactly when every batch is answered. Otherwise a
      wrong vector has been stored for some text, and stays there for later calls. */
  lemma CoherentExactlyWhenAnswered(u: Setup, cache: map<string, Vector>, texts: seq<string>, reachable: nat -> bool, embed: string -> Vector)
    requires u.batchSize >= 1 && u.hasRedis && Injective(u.key)
    requires Coherent(cache, u.key, embed) && PointwiseOrEmpty(u.api, embed) && NeverZero(embed, u.dim)
    ensures Coherent(CacheAfterBatch(u, cache, texts, reachable), u.key, embed)
       <==> AllAnswered(u.api, Missing(u, cache, texts, reachable), u.batchSize)
  {
    var missing := Missing(u, cache, texts, reachable);
    OwnVectorsIff(u.api, embed, missing, u.batchSize, u.dim);
    if AllAnswered(u.api, missing, u.batchSize) {
      StoredCoherent(u, cache, missing, Vectors(u, cache, texts, reachable), |missing|, embed);
    } else {
      var after := CacheAfterBatch(u, cache, texts, reachable);
      assert after[u.key(missing[|missing| - 1])] == Zero(u.dim);
    }
  }

  /** The batch path agrees with embedding each text on its own. Whatever the cache holds and can be
      reached for, whatever the batch size and whichever texts repeat: with a coherent cache and an
      API that embeds pointwise, each text gets what the single path gives it, which is its own
      embedding; with keys that do not collide the cache stays coherent, and it loses nothing. */
  lemma BatchAgreesWithSingles(u: Setup, cache: map<string, Vector>, texts: seq<string>, reachable: nat -> bool, embed: string -> Vector)
    requires u.batchSize >= 1 && Coherent(cache, u.key, embed) && Pointwise(u.api, embed)
    ensures AllOwn(u, cache, texts, reachable, embed)
    ensures forall i :: 0 <= i < |texts| ==> BatchVector(u, cache, texts, reachable, i) == SingleVector(u, cache, texts[i], reachable(i))
    ensures Injective(u.key) ==>
              var after := CacheAfterBatch(u, cache, texts, reachable);
              Coherent(after, u.key, embed) && cache.Keys <= after.Keys
  {
    var missing := Missing(u, cache, texts, reachable);
    BatchAnswersArePointwise(u.api, embed, missing, u.batchSize);
    AnsweredIsOwn(u, cache, texts, reachable, embed);
    forall i | 0 <= i < |texts|
      ensures BatchVector(u, cache, texts, reachable, i) == SingleVector(u, cache, texts[i], reachable(i))
    {
      SingleIsEmbedding(u, cache, texts[i], reachable(i), embed);
    }
    if Injective(u.key) {
      StoredCoherent(u, cache, missing, Vectors(u, cache, texts, reachable), |missing|, embed);
    }
  }

  /** What then happens to a text: with batches of one, when the API leaves the first of two
      uncached texts unanswered, that text gets the vector of the second, which is stored under the
      key of the first, and every later call that reaches the store is answered with it. */
  lemma WrongVectorIsCached(u: Setup, cache: map<string, Vector>, a: string, b: string, reachable: nat -> bool, embed: string -> Vector)
    requires u.hasRedis && u.batchSize == 1 && |a| <= MAX_CHARS && |b| <= MAX_CHARS
    requires u.key(a) !in cache && u.key(b) !in cache && u.key(a) != u.key(b)
    requires u.api([a]) == [] && u.api([b]) == [embed(b)] && embed(a) != embed(b)
    ensures BatchVector(u, cache, [a, b], reachable, 0) == embed(b) != embed(a)
    ensures SingleVector(u, CacheAfterBatch(u, cache, [a, b], reachable), a, true) == embed(b)
  {
    BothMissing(u, cache, a, b, reachable);
    SecondOnlyAnswered(u.api, a, b, embed(b));
    BothStored(u, cache, a, b, embed(b));
  }

  lemma MissesNext(u: Setup, cache: map<string, Vector>, texts: seq<string>, reachable: nat -> bool, n: nat)
    requires n < |texts| && !Hit(u, cache, texts[n], reachable(n))
    ensures Uncached(u, cache, texts, reachable, n + 1) == Uncached(u, cache, texts, reachable, n) + [n]
  {
  }

  lemma BothMissing(u: Setup, cache: map<string, Vector>, a: string, b: string, reachable: nat -> bool)
    requires |a| <= MAX_CHARS && |b| <= MAX_CHARS && u.key(a) !in cache && u.key(b) !in cache
    ensures Missing(u, cache, [a, b], reachable) == [a, b] && Uncached(u, cache, [a, b], reachable, 0) == []
  {
    MissesNext(u, cache, [a, b], reachable, 0);
    MissesNext(u, cache, [a, b], reachable, 1);
    var all := Uncached(u, cache, [a, b], reachable, 2);
    assert |all| == 2 && all[0] == 0 && all[1] == 1;
  }

  lemma SecondOnlyAnswered(api: seq<string> -> seq<Vector>, a: string, b: string, v: Vector)
    requires api([a]) == [] && api([b]) == [v]
    ensures BatchAnswers(api, [a, b], 1) == [v]
  {
    assert [a, b][..1] == [a] && [a, b][1..] == [b];
  }

  lemma BothStored(u: Setup, cache: map<string, Vector>, a: string, b: string, v: Vector)
    requires u.hasRedis
    ensures Stored(u, cache, [a, b], [v], 2) == cache[u.key(a) := v][u.key(b) := Zero(u.dim)]
  {
    assert Stored(u, cache, [a, b], [v], 1) == cache[u.key(a) := v];
  }

  // ----- The cache is used -----

  /** Exactly the texts that the cache does not answer for go to the API. */
  lemma MissingIff(u: Setup, cache: map<string, Vector>, texts: seq<string>, reachable: nat -> bool, t: string)
    ensures t in Missing(u, cache, texts, reachable) <==>
            exists i :: 0 <= i < |texts| && t == Truncate(texts[i]) && !Hit(u, cache, texts[i], reachable(i))
  {
    var all := Uncached(u, cache, texts, reachable, |texts|);
    if t in Missing(u, cache, texts, reachable) {
      var j: nat :| j < |all| && t == Truncate(texts[all[j]]);
      PlaceOfUncached(u, cache, texts, reachable, |texts|, j);
    }
    forall i | 0 <= i < |texts| && t == Truncate(texts[i]) && !Hit(u, cache, texts[i], reachable(i))
      ensures t in Missing(u, cache, texts, reachable)
    {
      UncachedAt(u, cache, texts, reachable, i, |texts|);
      assert Missing(u, cache, texts, reachable)[|Uncached(u, cache, texts, reachable, i)|] == t;
    }
  }

  lemma {:induction false} StoredKeys(u: Setup, cache: map<string, Vector>, texts: seq<string>, vectors: seq<Vector>, n: nat)
    requires n <= |texts| && u.hasRedis
    ensures var after := Stored(u, cache, texts, vectors, n);
            cache.Keys <= after.Keys && forall j :: 0 <= j < n ==> u.key(texts[j]) in after
  {
    if n > 0 {
      StoredKeys(u, cache, texts, vectors, n - 1);
    }
  }

  /** With a store a single text is cached: while the store can be reached, it gets the same vector again
      without an API call. Nothing else in the cache changes. */
  lemma SingleIsCached(u: Setup, cache: map<string, Vector>, text: string, reachable: bool)
    requires u.hasRedis
    ensures var after := CacheAfterSingle(u, cache, text, reachable);
            && Hit(u, after, text, true) && SingleVector(u, after, text, true) == SingleVector(u, cache, text, reachable)
            && forall k :: k != u.key(Truncate(text)) ==> (k in after <==> k in cache) && (k in cache ==> after[k] == cache[k])
  {
  }

  /** Once a batch has been embedded with a store, embedding its texts again while the store can be
      reached needs no API call, whatever the API answered. */
  lemma RepeatNeedsNoCall(u: Setup, cache: map<string, Vector>, texts: seq<string>, reachable: nat -> bool, later: nat -> bool)
    requires u.batchSize >= 1 && u.hasRedis && forall i :: 0 <= i < |texts| ==> later(i)
    ensures BatchCount(|Missing(u, CacheAfterBatch(u, cache, texts, reachable), texts, later)|, u.batchSize) == 0
  {
    var missing := Missing(u, cache, texts, reachable);
    var after := CacheAfterBatch(u, cache, texts, reachable);
    StoredKeys(u, cache, missing, Vectors(u, cache, texts, reachable), |missing|);
    forall i | 0 <= i < |texts|
      ensures Hit(u, after, texts[i], later(i))
    {
      if !Hit(u, cache, texts[i], reachable(i)) {
        MissingIff(u, cache, texts, reachable, Truncate(texts[i]));
        var j: nat :| j < |missing| && missing[j] == Truncate(texts[i]);
        assert u.key(missing[j]) in after;
      }
    }
    if Missing(u, after, texts, later) != [] {
      MissingIff(u, after, texts, later, Missing(u, after, texts, later)[0]);
    }
  }
}
