/** Result assembly of `find_similar_questions` (src/main.py): the positions and distances
    returned by the vector search for one query are resolved through the identifier map,
    scored, and turned into links, in the order the search returned them. Embedding the
    query and the search itself are outside the model: their output is the input here. */
module Query {
  import opened Decimal
  import opened Scoring

  /** The fixed prefix of every result link. */
  const LinkPrefix: string := "https://stackoverflow.com/q/"

  /** One entry of the response (`SimilarQuestion`). */
  datatype SimilarQuestion = SimilarQuestion(soId: string, distance: real, similarityPercent: real, link: string)

  /** Positions Python's list indexing accepts: a negative position counts from the end. */
  predicate InListRange(n: nat, idx: int)
  {
    -(n as int) <= idx < n
  }

  /** `id_map[idx]` with Python's indexing. */
  function ListAt(idMap: seq<int>, idx: int): int
    requires InListRange(|idMap|, idx)
  {
    if idx >= 0 then idMap[idx] else idMap[|idMap| + idx]
  }

  /** The entry built for an identifier found at the given distance. */
  function MakeResult(id: int, distance: real): (q: SimilarQuestion)
    ensures q.soId == IntToString(id) && ParseInt(q.soId) == id
    ensures q.link == LinkPrefix + q.soId
    ensures q.distance == distance
    ensures q.similarityPercent == SimilarityPercent(distance)
  {
    ParseIntToString(id);
    var soId := IntToString(id);
    SimilarQuestion(soId, distance, SimilarityPercent(distance), LinkPrefix + soId)
  }

  /** Builds the results list: one entry per returned search position, in the order the
      search returned them; entry i names `str(id_map[indices[i]])`, carries the i-th
      distance, the score of that distance, and the link for that identifier. */
  method FindSimilarQuestions(idMap: seq<int>, indices: seq<int>, distances: seq<real>)
    returns (results: seq<SimilarQuestion>)
    requires |distances| == |indices|
    requires forall i | 0 <= i < |indices| :: InListRange(|idMap|, indices[i])
    ensures |results| == |indices|
    ensures forall i | 0 <= i < |results| ::
              && results[i].soId == IntToString(ListAt(idMap, indices[i]))
              && results[i].distance == distances[i]
              && results[i].similarityPercent == SimilarityPercent(distances[i])
              && results[i].link == LinkPrefix + results[i].soId
  {
    results := [];
    var i := 0;
    while i < |indices|
      invariant 0 <= i <= |indices|
      invariant |results| == i
      invariant forall j | 0 <= j < i :: results[j] == MakeResult(ListAt(idMap, indices[j]), distances[j])
    {
      var idx := indices[i];
      var id := if idx >= 0 then idMap[idx] else idMap[|idMap| + idx];
      assert id == ListAt(idMap, indices[i]);
      var result := MakeResult(id, distances[i]);
      ghost var prev := results;
      results := results + [result];
      assert results[i] == result;
      assert forall j | 0 <= j < i :: results[j] == prev[j];
      i := i + 1;
    }
  }

  /** The search returns distances in ascending order; the similarities of the results are
      then in non-increasing order, best match first. */
  lemma ResultsBestFirst(results: seq<SimilarQuestion>, distances: seq<real>)
    requires |results| == |distances|
    requires forall i | 0 <= i < |results| :: results[i].similarityPercent == SimilarityPercent(distances[i])
    requires forall i, j | 0 <= i < j < |distances| :: distances[i] <= distances[j]
    ensures forall i, j | 0 <= i < j < |results| :: results[i].similarityPercent >= results[j].similarityPercent
  {
    forall i, j | 0 <= i < j < |results|
      ensures results[i].similarityPercent >= results[j].similarityPercent
    {
      SimilarityPercentMonotone(distances[i], distances[j]);
    }
  }

  /** Every entry for a real L2 distance (never negative) reports a percentage in [30, 100]. */
  lemma ResultsInRange(results: seq<SimilarQuestion>)
    requires forall i | 0 <= i < |results| ::
               results[i].distance >= 0.0 && results[i].similarityPercent == SimilarityPercent(results[i].distance)
    ensures forall i | 0 <= i < |results| :: 30.0 <= results[i].similarityPercent <= 100.0
  {
    forall i | 0 <= i < |results|
      ensures 30.0 <= results[i].similarityPercent <= 100.0
    {
      SimilarityPercentRange(results[i].distance);
    }
  }
}
