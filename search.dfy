/**
 * The search endpoint (backend/app/api/endpoints/search.py): the `top_k` query
 * bounds, the no-face and exception control flow around the service call, and
 * the ranking `results.sort(key=similarity_score, reverse=True)`.
 */
module Search {
  import opened Wrappers
  import opened UserModel
  import opened MilvusResults
  import opened MilvusService

  // ---------------------------------------------------------------------------
  // Ranking: a stable sort by similarity, highest first
  // ---------------------------------------------------------------------------

  predicate SortedBySimilarity(s: seq<SearchResult>) {
    forall i, j :: 0 <= i < j < |s| ==> s[i].similarityScore >= s[j].similarityScore
  }

  /** The results with similarity `v`, in their order in `s`. */
  function WithScore(s: seq<SearchResult>, v: real): seq<SearchResult> {
    if s == [] then []
    else (if s[0].similarityScore == v then [s[0]] else []) + WithScore(s[1..], v)
  }

  /** Places `x` after every element whose similarity is at least its own. */
  function InsertBySimilarity(s: seq<SearchResult>, x: SearchResult): (r: seq<SearchResult>)
    requires SortedBySimilarity(s)
    ensures SortedBySimilarity(r)
    ensures multiset(r) == multiset(s) + multiset{x}
    ensures r[0] == if s == [] || s[0].similarityScore < x.similarityScore then x else s[0]
  {
    if s == [] then [x]
    else if s[0].similarityScore >= x.similarityScore then
      assert s == [s[0]] + s[1..];
      var rest := InsertBySimilarity(s[1..], x);
      PrependKeepsSorted(s[0], rest);
      var r := [s[0]] + rest;
      assert multiset(r) == multiset{s[0]} + multiset(rest);
      r
    else
      [x] + s
  }

  lemma PrependKeepsSorted(y: SearchResult, s: seq<SearchResult>)
    requires SortedBySimilarity(s)
    requires s == [] || s[0].similarityScore <= y.similarityScore
    ensures SortedBySimilarity([y] + s)
  {
    var r := [y] + s;
    forall i, j | 0 <= i < j < |r| ensures r[i].similarityScore >= r[j].similarityScore {
      if i == 0 {
        assert r[j] == s[j - 1];
      } else {
        assert r[i] == s[i - 1] && r[j] == s[j - 1];
      }
    }
  }

  /**
   * `results.sort(key=lambda x: x.similarity_score, reverse=True)`, as an insertion
   * sort: the result is ordered by similarity, highest first, and is a permutation
   * of the input.
   */
  function RankBySimilarity(s: seq<SearchResult>): (r: seq<SearchResult>)
    ensures SortedBySimilarity(r)
    ensures multiset(r) == multiset(s)
  {
    if s == [] then []
    else
      assert s == s[..|s| - 1] + [s[|s| - 1]];
      InsertBySimilarity(RankBySimilarity(s[..|s| - 1]), s[|s| - 1])
  }

  lemma {:induction false} WithScoreAppend(a: seq<SearchResult>, b: seq<SearchResult>, v: real)
    ensures WithScore(a + b, v) == WithScore(a, v) + WithScore(b, v)
  {
    if a == [] {
      assert a + b == b;
    } else {
      assert (a + b)[0] == a[0];
      assert (a + b)[1..] == a[1..] + b;
      WithScoreAppend(a[1..], b, v);
    }
  }

  lemma {:induction false} WithScoreNone(s: seq<SearchResult>, v: real)
    requires forall i :: 0 <= i < |s| ==> s[i].similarityScore != v
    ensures WithScore(s, v) == []
  {
    if s != [] {
      WithScoreNone(s[1..], v);
    }
  }

  /** Inserting `x` appends it to the results of equal similarity: it goes after them. */
  lemma {:induction false} InsertIsStable(s: seq<SearchResult>, x: SearchResult, v: real)
    requires SortedBySimilarity(s)
    ensures WithScore(InsertBySimilarity(s, x), v) ==
      WithScore(s, v) + (if x.similarityScore == v then [x] else [])
  {
    if s == [] {
      assert InsertBySimilarity(s, x) == [x];
      assert [x][1..] == [];
    } else if s[0].similarityScore >= x.similarityScore {
      var rest := InsertBySimilarity(s[1..], x);
      assert InsertBySimilarity(s, x) == [s[0]] + rest;
      InsertIsStable(s[1..], x, v);
      ConsKeepsWithScore(s[0], rest, s[1..], if x.similarityScore == v then [x] else [], v);
      assert [s[0]] + s[1..] == s;
    } else {
      InsertInFront(s, x, v);
    }
  }

  /** Putting the same element in front of two lists keeps their per-score relation. */
  lemma ConsKeepsWithScore(y: SearchResult, r: seq<SearchResult>, t: seq<SearchResult>,
                           extra: seq<SearchResult>, v: real)
    requires WithScore(r, v) == WithScore(t, v) + extra
    ensures WithScore([y] + r, v) == WithScore([y] + t, v) + extra
  {
    SplitFirst(y, r, v);
    SplitFirst(y, t, v);
  }

  /** The step of `InsertIsStable` where `x` goes in front: nothing after it ties with it. */
  lemma InsertInFront(s: seq<SearchResult>, x: SearchResult, v: real)
    requires SortedBySimilarity(s) && s != [] && s[0].similarityScore < x.similarityScore
    ensures WithScore(InsertBySimilarity(s, x), v) ==
      WithScore(s, v) + (if x.similarityScore == v then [x] else [])
  {
    assert InsertBySimilarity(s, x) == [x] + s;
    SplitFirst(x, s, v);
    if x.similarityScore == v {
      forall i | 0 <= i < |s| ensures s[i].similarityScore != v {
        assert s[0].similarityScore >= s[i].similarityScore;
      }
      WithScoreNone(s, v);
    }
  }

  lemma SplitFirst(y: SearchResult, s: seq<SearchResult>, v: real)
    ensures WithScore([y] + s, v) == (if y.similarityScore == v then [y] else []) + WithScore(s, v)
  {
    assert ([y] + s)[0] == y;
    assert ([y] + s)[1..] == s;
  }

  /**
   * The ranking is stable: for every similarity value, the results with that value
   * keep the relative order in which the service returned them.
   */
  lemma {:induction false} RankIsStable(s: seq<SearchResult>, v: real)
    ensures WithScore(RankBySimilarity(s), v) == WithScore(s, v)
  {
    if s != [] {
      var n := |s| - 1;
      var p, x := s[..n], s[n];
      var rp := RankBySimilarity(p);
      assert RankBySimilarity(s) == InsertBySimilarity(rp, x);
      RankIsStable(p, v);
      InsertIsStable(rp, x, v);
      assert p + [x] == s;
      WithScoreAppend(p, [x], v);
      assert WithScore([x], v) == (if x.similarityScore == v then [x] else []) by {
        assert [x][1..] == [];
      }
    }
  }

  /**
   * Any list sorted by similarity that keeps, value by value, the order of the
   * input is the ranking: the outcome does not depend on which stable sort runs.
   */
  lemma {:induction false} StableSortIsUnique(s: seq<SearchResult>, t: seq<SearchResult>)
    requires SortedBySimilarity(t)
    requires forall v :: WithScore(t, v) == WithScore(s, v)
    ensures t == RankBySimilarity(s)
  {
    var r := RankBySimilarity(s);
    forall v ensures WithScore(t, v) == WithScore(r, v) {
      RankIsStable(s, v);
    }
    SortedWithSameScoresAreEqual(t, r);
  }

  /** A non-empty list has results with its first similarity; an empty one has none. */
  lemma ScoreSeparates(s: seq<SearchResult>, t: seq<SearchResult>)
    requires s != [] && t == []
    ensures WithScore(s, s[0].similarityScore) != WithScore(t, s[0].similarityScore)
  {
  }

  lemma {:induction false} SortedWithSameScoresAreEqual(a: seq<SearchResult>, b: seq<SearchResult>)
    requires SortedBySimilarity(a) && SortedBySimilarity(b)
    requires forall v :: WithScore(a, v) == WithScore(b, v)
    ensures a == b
  {
    if a == [] || b == [] {
      if a != [] {
        ScoreSeparates(a, b);
        assert false;
      }
      if b != [] {
        ScoreSeparates(b, a);
        assert false;
      }
    } else {
      var ma, mb := a[0].similarityScore, b[0].similarityScore;
      if ma > mb {
        WithScoreNone(b, ma);
        assert false;
      }
      if mb > ma {
        WithScoreNone(a, mb);
        assert false;
      }
      assert a[0] == WithScore(a, ma)[0] == WithScore(b, ma)[0] == b[0];
      forall v ensures WithScore(a[1..], v) == WithScore(b[1..], v) {
        var pre := WithScore([a[0]], v);
        assert WithScore(a, v) == pre + WithScore(a[1..], v) by {
          assert a == [a[0]] + a[1..];
          WithScoreAppend([a[0]], a[1..], v);
        }
        assert WithScore(b, v) == pre + WithScore(b[1..], v) by {
          assert b == [b[0]] + b[1..];
          WithScoreAppend([b[0]], b[1..], v);
        }
        assert WithScore(a[1..], v) == WithScore(a, v)[|pre|..];
        assert WithScore(b[1..], v) == WithScore(b, v)[|pre|..];
      }
      SortedWithSameScoresAreEqual(a[1..], b[1..]);
      assert a == [a[0]] + a[1..] && b == [b[0]] + b[1..];
    }
  }

  // ---------------------------------------------------------------------------
  // The endpoint
  // ---------------------------------------------------------------------------

  /** The endpoint's answers: the ranked list, or the request's rejection. */
  datatype SearchResponse =
    | Found(results: seq<SearchResult>)
    | InvalidTopK          // top_k outside 1..20: rejected before the handler runs
    | NoFaceDetected       // 400
    | ServerError          // 500

  const DefaultTopK := 5
  const MaxTopK := 20

  /** The value of the `top_k` query parameter after its default, if it lies in 1..20. */
  function AcceptedTopK(topK: Option<int>): (k: Option<int>)
    ensures k.Some? <==> 1 <= topK.GetOr(DefaultTopK) <= MaxTopK
    ensures k.Some? ==> k.value == topK.GetOr(DefaultTopK) && k.value != 0
    ensures topK.None? ==> k == Some(5)
  {
    var k := topK.GetOr(DefaultTopK);
    if 1 <= k <= MaxTopK then Some(k) else None
  }

  /**
   * `search_user` as written: `top_k` bounds, a query embedding or 400, then
   * `milvus_service.collection.describe()` before the search, which raises (and
   * becomes a 500) when there is no collection handle, as in local mode. Then the
   * service call and the ranking.
   */
  method SearchUser(service: Service, topK: Option<int>, queryEmbedding: Option<seq<real>>,
                    backend: (seq<real>, int) -> SearchReply)
    returns (response: SearchResponse)
    requires service.Valid()
    ensures AcceptedTopK(topK).None? ==> response == InvalidTopK
    ensures AcceptedTopK(topK).Some? && queryEmbedding.None? ==> response == NoFaceDetected
    ensures AcceptedTopK(topK).Some? && queryEmbedding.Some? && service.mode == Local ==>
      response == ServerError
    ensures AcceptedTopK(topK).Some? && queryEmbedding.Some? && !service.CanDescribe() ==>
      response == ServerError
    ensures response.Found? ==>
      (service.CanDescribe() && queryEmbedding.Some? && AcceptedTopK(topK).Some? &&
       response.results == RankBySimilarity(service.SearchOutcome(queryEmbedding.value, AcceptedTopK(topK), backend)))
    ensures AcceptedTopK(topK).Some? && queryEmbedding.Some? && service.CanDescribe() ==> response.Found?
  {
    var k := AcceptedTopK(topK);
    if k.None? {
      return InvalidTopK;
    }
    if queryEmbedding.None? {
      return NoFaceDetected;
    }
    if !service.CanDescribe() {
      return ServerError;
    }
    var results := service.SearchSimilarEmbeddings(queryEmbedding.value, k, backend);
    results := RankBySimilarity(results);
    response := Found(results);
  }

  /** `search_user` without the `describe()` call: every valid request with a face is answered with the ranking. */
  method SearchUserWithoutDescribe(service: Service, topK: Option<int>, queryEmbedding: Option<seq<real>>,
                                   backend: (seq<real>, int) -> SearchReply)
    returns (response: SearchResponse)
    requires service.Valid()
    ensures AcceptedTopK(topK).None? ==> response == InvalidTopK
    ensures AcceptedTopK(topK).Some? && queryEmbedding.None? ==> response == NoFaceDetected
    ensures AcceptedTopK(topK).Some? && queryEmbedding.Some? ==>
      response == Found(RankBySimilarity(service.SearchOutcome(queryEmbedding.value, AcceptedTopK(topK), backend)))
  {
    var k := AcceptedTopK(topK);
    if k.None? {
      return InvalidTopK;
    }
    if queryEmbedding.None? {
      return NoFaceDetected;
    }
    var results := service.SearchSimilarEmbeddings(queryEmbedding.value, k, backend);
    results := RankBySimilarity(results);
    response := Found(results);
  }

  /**
   * What a successful answer holds: the service's results, reordered only, ranked
   * by similarity, stable among equal scores, each within the bounds and at least
   * the threshold.
   */
  lemma FoundIsRankedServiceOutput(service: Service, queryEmbedding: seq<real>, k: Option<int>,
                                   backend: (seq<real>, int) -> SearchReply)
    ensures var out := service.SearchOutcome(queryEmbedding, k, backend);
      var ranked := RankBySimilarity(out);
      SortedBySimilarity(ranked) &&
      multiset(ranked) == multiset(out) &&
      (forall v :: WithScore(ranked, v) == WithScore(out, v)) &&
      (forall r :: r in ranked ==> InBounds(r) && r.similarityScore >= service.threshold)
  {
    var out := service.SearchOutcome(queryEmbedding, k, backend);
    var ranked := RankBySimilarity(out);
    forall v ensures WithScore(ranked, v) == WithScore(out, v) {
      RankIsStable(out, v);
    }
    forall r | r in ranked ensures InBounds(r) && r.similarityScore >= service.threshold {
      assert r in multiset(ranked);
    }
  }
}
