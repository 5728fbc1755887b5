/** `create_search_index` (src/scripts/4_create_search_index.py): drop the golden questions
    whose Title or Body is missing, embed `Title + ". " + Body` for each remaining row, add
    the vectors to a flat L2 index in row order, and keep the Id column of the same rows
    as the identifier map. The sentence embedder is a parameter: a deterministic function
    from a text to a vector. */
module SearchIndex {
  import opened Seqs
  import opened GoldenDataset

  /** A flat index: the vectors added so far, each of the index's dimension, in the order
      they were added (position i of a search result names vector i). */
  class FlatIndex {
    const dimension: nat
    var vectors: seq<seq<real>>

    ghost predicate Valid()
      reads this
    {
      forall i | 0 <= i < |vectors| :: |vectors[i]| == dimension
    }

    /** `ntotal`, the number of vectors held. */
    function NTotal(): (n: nat)
      reads this
      ensures n == |vectors|
    {
      |vectors|
    }

    constructor(dimension: nat)
      ensures this.dimension == dimension
      ensures vectors == []
      ensures Valid()
    {
      this.dimension := dimension;
      vectors := [];
    }

    /** `index.add(xs)`: appends the vectors, in order, after those already held. */
    method Add(xs: seq<seq<real>>)
      requires Valid()
      requires forall i | 0 <= i < |xs| :: |xs[i]| == dimension
      modifies this
      ensures vectors == old(vectors) + xs
      ensures NTotal() == old(NTotal()) + |xs|
      ensures Valid()
    {
      vectors := vectors + xs;
    }
  }

  /** A row survives `dropna(subset=['Title', 'Body'])`. */
  predicate IsComplete(r: GoldenQuestion)
  {
    r.title.Some? && r.body.Some?
  }

  /** The rows left after `dropna`, in their original order. */
  function DropMissing(rows: seq<GoldenQuestion>): (kept: seq<GoldenQuestion>)
    ensures |kept| <= |rows|
    ensures forall r | r in kept :: r in rows && IsComplete(r)
  {
    FilterMembers(IsComplete, rows);
    Filter(IsComplete, rows)
  }

  /** The `text_to_embed` column. */
  function EmbedText(r: GoldenQuestion): string
    requires IsComplete(r)
  {
    r.title.value + ". " + r.body.value
  }

  /** The embeddings of the kept rows, one per row in row order. */
  function Embeddings(kept: seq<GoldenQuestion>, embed: string -> seq<real>): (vs: seq<seq<real>>)
    requires forall r | r in kept :: IsComplete(r)
    ensures |vs| == |kept|
  {
    seq(|kept|, i requires 0 <= i < |kept| => embed(EmbedText(kept[i])))
  }

  /** `df['Id'].tolist()`. */
  function IdColumn(kept: seq<GoldenQuestion>): (ids: seq<int>)
    ensures |ids| == |kept|
  {
    seq(|kept|, i requires 0 <= i < |kept| => kept[i].id)
  }

  datatype BuildOutcome =
    | InputMissing
    /** `model.encode([])` has no second dimension to read: the script stops there. */
    | EmptyCorpus
    | Built(index: FlatIndex, idMap: seq<int>)

  /** Builds the index and the identifier map. When the input exists and some row
      survives `dropna`, the index is new, has the embedder's dimension, and holds the
      embedding of every kept row in order, and the identifier map is the kept rows' Id
      column, as long as the index. */
  method CreateSearchIndex(inputExists: bool, rows: seq<GoldenQuestion>, embed: string -> seq<real>)
    returns (out: BuildOutcome)
    requires forall s, t :: |embed(s)| == |embed(t)|
    ensures out.InputMissing? <==> !inputExists
    ensures out.EmptyCorpus? <==> inputExists && DropMissing(rows) == []
    ensures out.Built? ==>
      && fresh(out.index)
      && out.index.Valid()
      && out.index.dimension == |embed(EmbedText(DropMissing(rows)[0]))|
      && out.index.vectors == Embeddings(DropMissing(rows), embed)
      && out.idMap == IdColumn(DropMissing(rows))
      && out.index.NTotal() == |out.idMap|
  {
    if !inputExists {
      return BuildOutcome.InputMissing;
    }
    var df := DropMissing(rows);
    if df == [] {
      return BuildOutcome.EmptyCorpus;
    }
    var questionEmbeddings := Embeddings(df, embed);
    var embeddingDim := |questionEmbeddings[0]|;
    forall i | 0 <= i < |questionEmbeddings| ensures |questionEmbeddings[i]| == embeddingDim {
      assert |embed(EmbedText(df[i]))| == |embed(EmbedText(df[0]))|;
    }
    var index := new FlatIndex(embeddingDim);
    index.Add(questionEmbeddings);
    var idMap := IdColumn(df);
    out := Built(index, idMap);
  }

  /** The positional invariant: vector i of the index and entry i of the identifier map
      come from the same row, the one at position `KeptPositions(IsComplete, rows)[i]` of
      the golden dataset; that row has a Title and a Body, its text produced vector i, and
      its Id is entry i. Rows are dropped exactly when a Title or Body is missing, and the
      kept rows keep their order. */
  lemma {:induction false} IdMapCorrespondence(rows: seq<GoldenQuestion>, embed: string -> seq<real>)
    ensures |Embeddings(DropMissing(rows), embed)| == |IdColumn(DropMissing(rows))| == |KeptPositions(IsComplete, rows)|
    ensures forall i | 0 <= i < |KeptPositions(IsComplete, rows)| ::
              var p := KeptPositions(IsComplete, rows)[i];
              && p < |rows|
              && IsComplete(rows[p])
              && IdColumn(DropMissing(rows))[i] == rows[p].id
              && Embeddings(DropMissing(rows), embed)[i] == embed(rows[p].title.value + ". " + rows[p].body.value)
    ensures forall j | 0 <= j < |rows| :: IsComplete(rows[j]) <==> j in KeptPositions(IsComplete, rows)
    ensures Increasing(KeptPositions(IsComplete, rows))
  {
    FilterPositions(IsComplete, rows);
    var kept, ps := DropMissing(rows), KeptPositions(IsComplete, rows);
    forall i | 0 <= i < |ps|
      ensures ps[i] < |rows| && IsComplete(rows[ps[i]])
      ensures IdColumn(kept)[i] == rows[ps[i]].id
      ensures Embeddings(kept, embed)[i] == embed(rows[ps[i]].title.value + ". " + rows[ps[i]].body.value)
    {
      assert kept[i] == rows[ps[i]];
      assert kept[i] in kept;
      assert Embeddings(kept, embed)[i] == embed(EmbedText(kept[i]));
    }
  }
}
