/** The index built by `create_search_index` and the identifier map saved beside it are
    what `find_similar_questions` reads. Composing the two specifications: every search
    result names, and links to, the golden question whose text produced the vector the
    search returned. */
module EndToEnd {
  import opened Seqs
  import opened Decimal
  import opened GoldenDataset
  import opened SearchIndex
  import opened Query

  /** Given results shaped as `FindSimilarQuestions` promises, over the identifier map of
      the golden rows `rows` and search positions inside the index, result i names the Id
      of the kept row at `KeptPositions(IsComplete, rows)[indices[i]]`, links to it, and
      that row's text produced the vector at the searched position. */
  lemma ResultsNameEmbeddedRows(rows: seq<GoldenQuestion>, embed: string -> seq<real>,
                                indices: seq<int>, results: seq<SimilarQuestion>)
    requires forall i | 0 <= i < |indices| :: 0 <= indices[i] < |IdColumn(DropMissing(rows))|
    requires |results| == |indices|
    requires forall i | 0 <= i < |results| ::
               && results[i].soId == IntToString(ListAt(IdColumn(DropMissing(rows)), indices[i]))
               && results[i].link == LinkPrefix + results[i].soId
    ensures |KeptPositions(IsComplete, rows)| == |IdColumn(DropMissing(rows))|
    ensures forall i | 0 <= i < |results| ::
              var p := KeptPositions(IsComplete, rows)[indices[i]];
              && p < |rows|
              && IsComplete(rows[p])
              && ParseInt(results[i].soId) == rows[p].id
              && results[i].link == LinkPrefix + IntToString(rows[p].id)
              && Embeddings(DropMissing(rows), embed)[indices[i]] == embed(EmbedText(rows[p]))
  {
    IdMapCorrespondence(rows, embed);
    forall i | 0 <= i < |results|
      ensures KeptPositions(IsComplete, rows)[indices[i]] < |rows|
      ensures ParseInt(results[i].soId) == rows[KeptPositions(IsComplete, rows)[indices[i]]].id
    {
      ParseIntToString(ListAt(IdColumn(DropMissing(rows)), indices[i]));
    }
  }
}
