/**
 * Result normalisation and threshold filtering of the vector-store service
 * (backend/app/services/milvus_service.py): `_normalize_distance`, and the two
 * loops `_process_local_results` and `_process_remote_results` that turn the
 * backend's hits into `UserSearchResult` values.
 */
module MilvusResults {
  import opened Wrappers
  import opened UserModel

  /** Which backend the service talks to: the embedded local index or a remote server. */
  datatype Mode = Local | Remote

  /**
   * One hit as a backend returns it. The local client reports a `score` key,
   * the remote client a `distance` attribute; either may be absent, and so may
   * the `name` and `registration_number` output fields.
   */
  datatype Hit = Hit(
    score: Option<real>,
    distance: Option<real>,
    name: Option<string>,
    registrationNumber: Option<string>
  )

  // ---------------------------------------------------------------------------
  // _normalize_distance
  // ---------------------------------------------------------------------------

  /** The raw value forced into [0, 2]: negative becomes 0, above 2 becomes 2. */
  function ClampRaw(raw: real): (c: real)
    ensures 0.0 <= c <= 2.0
    ensures 0.0 <= raw <= 2.0 ==> c == raw
    ensures raw < 0.0 ==> c == 0.0
    ensures raw > 2.0 ==> c == 2.0
  {
    if !(0.0 <= raw <= 2.0) then (if raw < 0.0 then 0.0 else 2.0) else raw
  }

  function Min(a: real, b: real): real { if a <= b then a else b }
  function Max(a: real, b: real): real { if a >= b then a else b }

  /**
   * `_normalize_distance`: clamp the raw value, compute `1 - r` clamped to [0, 1],
   * then swap the two before returning. The caller binds the first component to
   * `cosine_distance` and the second to `similarity_score`, so the similarity is
   * the clamped raw value itself. Out-of-range input is repaired, never refused.
   */
  function NormalizeDistance(rawDistance: real): (r: (real, real))
    ensures 0.0 <= r.0 <= 1.0
    ensures 0.0 <= r.1 <= 2.0
    ensures 0.0 <= rawDistance <= 2.0 ==> r.1 == rawDistance
    ensures rawDistance < 0.0 ==> r.1 == 0.0
    ensures rawDistance > 2.0 ==> r.1 == 2.0
    ensures r.1 <= 1.0 ==> r.0 + r.1 == 1.0
    ensures r.1 >= 1.0 ==> r.0 == 0.0
  {
    var raw := ClampRaw(rawDistance);
    var cosineDistance := raw;
    var similarityScore := 1.0 - cosineDistance;
    var similarityScore := Max(0.0, Min(1.0, similarityScore));
    (similarityScore, cosineDistance)
  }

  /** The code's outputs for the inputs that the function's documentation illustrates. */
  lemma NormalizeDistanceExamples()
    ensures NormalizeDistance(0.0) == (1.0, 0.0)
    ensures NormalizeDistance(0.6406) == (0.3594, 0.6406)
    ensures NormalizeDistance(1.0) == (0.0, 1.0)
    ensures NormalizeDistance(-0.3) == (1.0, 0.0)
    ensures NormalizeDistance(2.7) == (0.0, 2.0)
  {
  }

  /**
   * The documented examples show the values before the swap (distance 0.0 with
   * similarity 1.0, distance 0.6406 with similarity 0.3594); the code returns them
   * the other way round whenever the clamped input is not 0.5.
   */
  lemma DocumentedExamplesDoNotHold(rawDistance: real)
    requires ClampRaw(rawDistance) != 0.5
    ensures var r := ClampRaw(rawDistance);
      NormalizeDistance(rawDistance) != (r, Max(0.0, Min(1.0, 1.0 - r)))
  {
    var r := ClampRaw(rawDistance);
    if r <= 1.0 {
      assert NormalizeDistance(rawDistance).1 == r;
      assert Max(0.0, Min(1.0, 1.0 - r)) == 1.0 - r;
    }
  }

  // ---------------------------------------------------------------------------
  // One hit: conversion, threshold and UserSearchResult construction
  // ---------------------------------------------------------------------------

  /**
   * What happens to one hit inside the loop body: `None` when the hit is below the
   * threshold or when reading it or building the `UserSearchResult` raises (the
   * loop logs that and goes on with the next hit).
   */
  function ConvertHit(mode: Mode, hit: Hit, threshold: real): (r: Option<SearchResult>)
    ensures r.Some? ==> InBounds(r.value) && r.value.similarityScore >= threshold
    ensures r.Some? ==> r.value.distance <= 2.0
    ensures r.Some? ==> hit.name == Some(r.value.name) && hit.registrationNumber == Some(r.value.registrationNumber)
  {
    match mode
    case Local =>
      var similarityScore := hit.score.GetOr(0.0);
      var cosineDistance := 2.0 * (1.0 - similarityScore);
      if similarityScore >= threshold then
        NewSearchResult(hit.name, hit.registrationNumber, similarityScore, cosineDistance)
      else None
    case Remote =>
      match hit.distance
      case None => None
      case Some(rawDistance) =>
        var (cosineDistance, similarityScore) := NormalizeDistance(rawDistance);
        if similarityScore >= threshold then
          NewSearchResult(hit.name, hit.registrationNumber, similarityScore, cosineDistance)
        else None
  }

  /**
   * A local hit is kept exactly when its score (0.0 when the key is missing) is at
   * least the threshold and lies in [0, 1], and both output fields are present. It
   * then carries that score and the distance 2 * (1 - score).
   */
  lemma LocalHitKeptIff(hit: Hit, threshold: real)
    ensures var s := hit.score.GetOr(0.0);
      ConvertHit(Local, hit, threshold).Some? <==>
        threshold <= s && 0.0 <= s <= 1.0 && hit.name.Some? && hit.registrationNumber.Some?
    ensures var s := hit.score.GetOr(0.0);
      ConvertHit(Local, hit, threshold).Some? ==>
        ConvertHit(Local, hit, threshold).value.similarityScore == s &&
        ConvertHit(Local, hit, threshold).value.distance == 2.0 * (1.0 - s)
  {
  }

  /**
   * A remote hit is kept exactly when it has a distance attribute, the clamped raw
   * value is at least the threshold and at most 1, and both output fields are
   * present. Its similarity is then the clamped raw value and its distance 1 minus it.
   */
  lemma RemoteHitKeptIff(hit: Hit, threshold: real)
    ensures ConvertHit(Remote, hit, threshold).Some? <==>
      hit.distance.Some? && threshold <= ClampRaw(hit.distance.value) <= 1.0 &&
      hit.name.Some? && hit.registrationNumber.Some?
    ensures ConvertHit(Remote, hit, threshold).Some? ==>
      ConvertHit(Remote, hit, threshold).value.similarityScore == ClampRaw(hit.distance.value) &&
      ConvertHit(Remote, hit, threshold).value.distance == 1.0 - ClampRaw(hit.distance.value)
  {
    if hit.distance.Some? {
      var n := NormalizeDistance(hit.distance.value);
      assert n.1 == ClampRaw(hit.distance.value);
    }
  }

  /** The remote conversion, step by step as the loop body takes it. */
  lemma RemoteConversion(hit: Hit, threshold: real)
    requires hit.distance.Some?
    ensures var n := NormalizeDistance(hit.distance.value);
      ConvertHit(Remote, hit, threshold) ==
        if n.1 >= threshold then NewSearchResult(hit.name, hit.registrationNumber, n.1, n.0) else None
  {
  }

  /** A remote hit whose raw value is above 1 is never returned, whatever the threshold. */
  lemma RemoteHitAboveOneDropped(hit: Hit, threshold: real)
    requires hit.distance.Some? && hit.distance.value > 1.0
    ensures ConvertHit(Remote, hit, threshold).None?
  {
    RemoteHitKeptIff(hit, threshold);
  }

  // ---------------------------------------------------------------------------
  // Whole result lists
  // ---------------------------------------------------------------------------

  function Emitted(o: Option<SearchResult>): seq<SearchResult> {
    if o.Some? then [o.value] else []
  }

  /** The results a processing loop emits for `hits`, in hit order. */
  function Kept(mode: Mode, hits: seq<Hit>, threshold: real): seq<SearchResult> {
    if hits == [] then []
    else Kept(mode, hits[..|hits| - 1], threshold) + Emitted(ConvertHit(mode, hits[|hits| - 1], threshold))
  }

  /** Every emitted result satisfies the field bounds and the threshold, and its distance is at most 2. */
  lemma {:induction false} KeptInBounds(mode: Mode, hits: seq<Hit>, threshold: real)
    ensures |Kept(mode, hits, threshold)| <= |hits|
    ensures forall r :: r in Kept(mode, hits, threshold) ==>
      InBounds(r) && r.similarityScore >= threshold && r.distance <= 2.0
  {
    if hits != [] {
      KeptInBounds(mode, hits[..|hits| - 1], threshold);
    }
  }

  /** The positions of the hits that are kept. */
  function KeptPositions(mode: Mode, hits: seq<Hit>, threshold: real): seq<nat> {
    if hits == [] then [] else
      var last := if ConvertHit(mode, hits[|hits| - 1], threshold).Some? then [|hits| - 1] else [];
      KeptPositions(mode, hits[..|hits| - 1], threshold) + last
  }

  /**
   * The emitted list is a subsequence of the hits: the k-th result comes from the
   * hit at a strictly increasing position, and a hit's position appears exactly
   * when that hit converts successfully. Nothing is reordered or duplicated.
   */
  lemma {:induction false} KeptIsSubsequence(mode: Mode, hits: seq<Hit>, threshold: real)
    ensures var kept, pos := Kept(mode, hits, threshold), KeptPositions(mode, hits, threshold);
      |pos| == |kept| &&
      (forall k :: 0 <= k < |pos| ==> pos[k] < |hits| && ConvertHit(mode, hits[pos[k]], threshold) == Some(kept[k])) &&
      (forall k, l :: 0 <= k < l < |pos| ==> pos[k] < pos[l]) &&
      (forall i :: 0 <= i < |hits| ==> (ConvertHit(mode, hits[i], threshold).Some? <==> i in pos))
  {
    if hits != [] {
      var n := |hits| - 1;
      var front := hits[..n];
      KeptIsSubsequence(mode, front, threshold);
      var pos := KeptPositions(mode, hits, threshold);
      var pos' := KeptPositions(mode, front, threshold);
      forall k | 0 <= k < |pos'| ensures pos'[k] < n && hits[pos'[k]] == front[pos'[k]] { }
      forall i | 0 <= i < |hits|
        ensures ConvertHit(mode, hits[i], threshold).Some? <==> i in pos
      {
        if i < n {
          assert hits[i] == front[i];
          assert i in pos <==> i in pos';
        }
      }
    }
  }

  /** Processing the concatenation of two hit lists is processing each and concatenating. */
  lemma {:induction false} KeptAppend(mode: Mode, a: seq<Hit>, b: seq<Hit>, threshold: real)
    ensures Kept(mode, a + b, threshold) == Kept(mode, a, threshold) + Kept(mode, b, threshold)
  {
    if b == [] {
      assert a + b == a;
    } else {
      var n := |b| - 1;
      assert (a + b)[..|a + b| - 1] == a + b[..n];
      assert (a + b)[|a + b| - 1] == b[n];
      KeptAppend(mode, a, b[..n], threshold);
    }
  }

  /** Processing one more hit emits what that hit converts to, after what came before. */
  lemma KeptStep(mode: Mode, hits: seq<Hit>, j: nat, threshold: real)
    requires j < |hits|
    ensures Kept(mode, hits[..j + 1], threshold) ==
      Kept(mode, hits[..j], threshold) + Emitted(ConvertHit(mode, hits[j], threshold))
  {
    assert hits[..j + 1][..j] == hits[..j];
  }

  /** On the remote path the two values of every result add up to 1. */
  lemma {:induction false} RemoteKeptComplements(hits: seq<Hit>, threshold: real)
    ensures forall r :: r in Kept(Remote, hits, threshold) ==> r.distance + r.similarityScore == 1.0
  {
    if hits != [] {
      var n := |hits| - 1;
      RemoteKeptComplements(hits[..n], threshold);
      RemoteHitKeptIff(hits[n], threshold);
    }
  }

  /** All query rows concatenated, the order in which the remote loops visit the hits. */
  function Flatten(rows: seq<seq<Hit>>): seq<Hit> {
    if rows == [] then [] else Flatten(rows[..|rows| - 1]) + rows[|rows| - 1]
  }

  /** What each processing method returns for the backend's reply. */
  function Processed(mode: Mode, results: seq<seq<Hit>>, threshold: real): seq<SearchResult> {
    match mode
    case Local => if results == [] then [] else Kept(Local, results[0], threshold)
    case Remote => Kept(Remote, Flatten(results), threshold)
  }

  /** Every returned result satisfies the bounds and the threshold, and the distance is at most 2. */
  lemma ProcessedInBounds(mode: Mode, results: seq<seq<Hit>>, threshold: real)
    ensures forall r :: r in Processed(mode, results, threshold) ==>
      InBounds(r) && r.similarityScore >= threshold && r.distance <= 2.0
  {
    match mode
    case Local => if results != [] { KeptInBounds(Local, results[0], threshold); }
    case Remote => KeptInBounds(Remote, Flatten(results), threshold);
  }

  /** The local loop reads only the first query's hits. */
  lemma LocalReadsFirstRowOnly(results: seq<seq<Hit>>, other: seq<seq<Hit>>, threshold: real)
    requires results != [] && other != [] && results[0] == other[0]
    ensures Processed(Local, results, threshold) == Processed(Local, other, threshold)
  {
  }

  /** The remote loops treat the rows as one list: the output for several rows is the outputs per row, in row order. */
  lemma {:induction false} RemoteRowsConcatenate(rows: seq<seq<Hit>>, row: seq<Hit>, threshold: real)
    ensures Processed(Remote, rows + [row], threshold) ==
      Processed(Remote, rows, threshold) + Kept(Remote, row, threshold)
  {
    assert (rows + [row])[..|rows|] == rows;
    KeptAppend(Remote, Flatten(rows), row, threshold);
  }

  // ---------------------------------------------------------------------------
  // The two loops
  // ---------------------------------------------------------------------------

  /** `_process_local_results`: only `results[0]` is read; an empty reply or empty first row gives []. */
  method ProcessLocalResults(results: seq<seq<Hit>>, threshold: real) returns (processed: seq<SearchResult>)
    ensures processed == Processed(Local, results, threshold)
    ensures forall r :: r in processed ==> InBounds(r) && r.similarityScore >= threshold
    ensures forall r :: r in processed ==> r.distance == 2.0 * (1.0 - r.similarityScore)
  {
    processed := [];
    if results == [] || results[0] == [] {
      return;
    }
    var hits := results[0];
    var i := 0;
    while i < |hits|
      invariant 0 <= i <= |hits|
      invariant processed == Kept(Local, hits[..i], threshold)
      invariant forall r :: r in processed ==> r.distance == 2.0 * (1.0 - r.similarityScore)
    {
      var hit := hits[i];
      var similarityScore := hit.score.GetOr(0.0);
      var cosineDistance := 2.0 * (1.0 - similarityScore);
      if similarityScore >= threshold {
        var result := NewSearchResult(hit.name, hit.registrationNumber, similarityScore, cosineDistance);
        if result.Some? {
          processed := processed + [result.value];
        }
      }
      assert hits[..i + 1][..i] == hits[..i];
      i := i + 1;
    }
    assert hits[..i] == hits;
    KeptInBounds(Local, hits, threshold);
  }

  /**
   * The inner loop of `_process_remote_results` over one row of hits: appends to
   * `acc` what the row keeps, in the row's order.
   */
  method AppendRemoteRow(acc: seq<SearchResult>, hits: seq<Hit>, threshold: real)
    returns (processed: seq<SearchResult>)
    ensures processed == acc + Kept(Remote, hits, threshold)
  {
    processed := acc;
    var j := 0;
    while j < |hits|
      invariant 0 <= j <= |hits|
      invariant processed == acc + Kept(Remote, hits[..j], threshold)
    {
      var hit := hits[j];
      ghost var before := processed;
      ghost var step := ConvertHit(Remote, hit, threshold);
      if hit.distance.Some? {
        var rawDistance := hit.distance.value;
        var (cosineDistance, similarityScore) := NormalizeDistance(rawDistance);
        RemoteConversion(hit, threshold);
        if similarityScore >= threshold {
          var result := NewSearchResult(hit.name, hit.registrationNumber, similarityScore, cosineDistance);
          assert step == result;
          if result.Some? {
            processed := processed + [result.value];
          }
        } else {
          assert step == None;
        }
      } else {
        assert step == None;
      }
      assert processed == before + Emitted(step);
      KeptStep(Remote, hits, j, threshold);
      j := j + 1;
    }
    assert hits[..j] == hits;
  }

  /** `_process_remote_results`: every hit of every row goes through the normaliser, in order. */
  method ProcessRemoteResults(results: seq<seq<Hit>>, threshold: real) returns (processed: seq<SearchResult>)
    ensures processed == Processed(Remote, results, threshold)
    ensures forall r :: r in processed ==> InBounds(r) && r.similarityScore >= threshold
    ensures forall r :: r in processed ==> r.distance + r.similarityScore == 1.0
  {
    processed := [];
    var i := 0;
    while i < |results|
      invariant 0 <= i <= |results|
      invariant processed == Kept(Remote, Flatten(results[..i]), threshold)
    {
      ghost var done := Flatten(results[..i]);
      processed := AppendRemoteRow(processed, results[i], threshold);
      KeptAppend(Remote, done, results[i], threshold);
      assert results[..i + 1][..i] == results[..i];
      i := i + 1;
    }
    assert results[..i] == results;
    RemoteKeptComplements(Flatten(results), threshold);
    KeptInBounds(Remote, Flatten(results), threshold);
  }
}
