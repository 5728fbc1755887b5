/** `create_golden_dataset` (src/scripts/1_create_golden_dataset.py). Phase 1 counts every
    tag of every question row of the dump and keeps the 50 most common; phase 2 scans the
    dump again and keeps, in document order, the questions with a top-50 tag, a score
    above 5 and an accepted answer, as records for the parquet file. */
module GoldenDataset {
  import opened Options
  import opened Seqs
  import opened Decimal
  import opened Counters
  import opened Posts

  /** The number of most common tags phase 1 keeps. */
  const TopTagCount: nat := 50
  /** A golden question scores strictly more than this. */
  const MinScore: int := 5

  /** One record of the golden dataset (a row of the parquet file). */
  datatype GoldenQuestion = GoldenQuestion(id: int, title: Option<string>, body: Option<string>, score: int, tags: string)

  /** `{tag for tag, count in tag_counter.most_common(50)}`. */
  function TopTags(c: Counter<string>): set<string>
  {
    Keys(MostCommon(c, TopTagCount))
  }

  /** The value of an attribute the caller knows to be present. */
  function AttrOr(e: Element, name: string): string
  {
    if name in e.attrs then e.attrs[name] else ""
  }

  /** `any(tag in top_50_tags for tag in found_tags)`. */
  predicate HasTopTag(e: Element, top: set<string>)
  {
    exists t | t in TagsOf(e) :: t in top
  }

  /** The rows on which phase 2 evaluates `int(score_str)`. */
  predicate IsCandidate(e: Element, top: set<string>)
  {
    && IsTaggedQuestion(e)
    && HasTopTag(e, top)
    && Truthy(Get(e, "Score"))
    && Truthy(Get(e, "AcceptedAnswerId"))
  }

  /** A golden question: a tagged question with a top tag, a score above 5 and an accepted
      answer. */
  predicate IsGolden(e: Element, top: set<string>)
  {
    IsCandidate(e, top) && ParseInt(AttrOr(e, "Score")) > MinScore
  }

  function GoldenFilter(top: set<string>): Element -> bool
  {
    e => IsGolden(e, top)
  }

  /** `int()` succeeds wherever phase 2 calls it: on the Score of every candidate, and on
      the Id of every golden question. */
  ghost predicate NumbersParse(e: Element, top: set<string>)
  {
    IsCandidate(e, top) ==>
      && IsIntLiteral(AttrOr(e, "Score"))
      && (ParseInt(AttrOr(e, "Score")) > MinScore ==> Get(e, "Id").Some? && IsIntLiteral(AttrOr(e, "Id")))
  }

  /** The record phase 2 appends for a golden question. */
  function ToRecord(e: Element): GoldenQuestion
  {
    GoldenQuestion(ParseInt(AttrOr(e, "Id")), Get(e, "Title"), Get(e, "Body"), ParseInt(AttrOr(e, "Score")), AttrOr(e, "Tags"))
  }

  function Records(es: seq<Element>): (rs: seq<GoldenQuestion>)
    ensures |rs| == |es|
  {
    seq(|es|, i requires 0 <= i < |es| => ToRecord(es[i]))
  }

  /** The golden dataset phase 2 builds from the elements, for a given top-50 set. */
  function GoldenRecords(es: seq<Element>, top: set<string>): seq<GoldenQuestion>
  {
    Records(Filter(GoldenFilter(top), es))
  }

  /** The top-50 set of a valid counter has at most 50 tags, and every selected tag has a
      count at least that of every tag not selected (counted or not). */
  lemma TopTagsSpec(c: Counter<string>)
    requires Valid(c)
    ensures |TopTags(c)| <= TopTagCount
    ensures forall t, u | t in TopTags(c) && u !in TopTags(c) :: Count(c, t) >= Count(c, u)
  {
    var top := MostCommon(c, TopTagCount);
    MostCommonSpec(c, TopTagCount);
    MostCommonDominates(c, TopTagCount);
    DistinctSize(top);
    forall t, u | t in TopTags(c) && u !in TopTags(c) ensures Count(c, t) >= Count(c, u) {
      var i :| 0 <= i < |top| && top[i].key == t;
      assert top[i] in top;
    }
  }

  /** The dataset holds exactly the golden questions of the dump, each once, in document
      order: record i comes from the element at `KeptPositions(...)[i]`, carries its Id and
      Score as integers and its Title, Body and raw Tags unchanged, and an element is
      kept iff it is golden. */
  lemma GoldenRecordsSpec(es: seq<Element>, top: set<string>)
    ensures |GoldenRecords(es, top)| == |KeptPositions(GoldenFilter(top), es)|
    ensures forall i | 0 <= i < |GoldenRecords(es, top)| :: KeptPositions(GoldenFilter(top), es)[i] < |es|
    ensures forall i | 0 <= i < |GoldenRecords(es, top)| ::
              var e := es[KeptPositions(GoldenFilter(top), es)[i]];
              && IsGolden(e, top)
              && GoldenRecords(es, top)[i] ==
                 GoldenQuestion(ParseInt(AttrOr(e, "Id")), Get(e, "Title"), Get(e, "Body"),
                                ParseInt(AttrOr(e, "Score")), Get(e, "Tags").value)
    ensures forall j | 0 <= j < |es| :: IsGolden(es[j], top) <==> j in KeptPositions(GoldenFilter(top), es)
    ensures Increasing(KeptPositions(GoldenFilter(top), es))
  {
    FilterPositions(GoldenFilter(top), es);
  }

  /** Some record is produced exactly when some element of the dump is golden. */
  lemma GoldenRecordsNonEmpty(es: seq<Element>, top: set<string>)
    ensures GoldenRecords(es, top) != [] <==> exists j | 0 <= j < |es| :: IsGolden(es[j], top)
  {
    GoldenRecordsSpec(es, top);
    var ps := KeptPositions(GoldenFilter(top), es);
    if GoldenRecords(es, top) != [] {
      assert IsGolden(es[ps[0]], top);
    }
  }

  datatype Outcome =
    | InputMissing
    | Finished(top50Tags: set<string>, questions: seq<GoldenQuestion>,
               totalPostsProcessed: nat, finalGoldenQuestions: nat)
  {
    /** The parquet file is written only when some question was found. */
    predicate Written()
    {
      Finished? && questions != []
    }
  }

  /** Both phases. Phase 1's counter is the tally of every tag occurrence in the dump and
      `top_50_tags` its 50 most common tags; phase 2 keeps the golden questions for that
      set; `total_posts_processed` (as printed, after phase 2) counts every row element,
      and `final_golden_questions` equals the number of records. */
  method CreateGoldenDataset(inputExists: bool, es: seq<Element>) returns (out: Outcome)
    requires forall e | e in es :: NumbersParse(e, TopTags(Tally(AllTags(es))))
    ensures out.InputMissing? <==> !inputExists
    ensures out.Finished? ==>
      && out.top50Tags == TopTags(Tally(AllTags(es)))
      && out.questions == GoldenRecords(es, out.top50Tags)
      && out.totalPostsProcessed == RowCount(es)
      && out.finalGoldenQuestions == |out.questions|
    ensures out.Written() <==> inputExists && exists j | 0 <= j < |es| :: IsGolden(es[j], TopTags(Tally(AllTags(es))))
  {
    if !inputExists {
      return InputMissing;
    }
    var tagCounter := ProfileTags(es);
    var top50Tags := TopTags(tagCounter);
    var questionsList, totalPostsProcessed, finalGoldenQuestions := FilterGolden(es, top50Tags);
    GoldenRecordsNonEmpty(es, top50Tags);
    out := Finished(top50Tags, questionsList, totalPostsProcessed, finalGoldenQuestions);
  }

  /** Phase 1: the counter is the tally of the tags of every tagged question. */
  method ProfileTags(es: seq<Element>) returns (tagCounter: Counter<string>)
    ensures tagCounter == Tally(AllTags(es))
  {
    tagCounter := [];
    var totalPostsProcessed := 0;
    var i := 0;
    while i < |es|
      invariant i <= |es|
      invariant totalPostsProcessed == RowCount(es[..i])
      invariant tagCounter == Tally(AllTags(es[..i]))
    {
      var elem := es[i];
      RowCountStep(es, i);
      TagTallyStep(es, i);
      if elem.tag == "row" {
        totalPostsProcessed := totalPostsProcessed + 1;
        if Get(elem, "PostTypeId") == Some("1") {
          var tagsStr := Get(elem, "Tags");
          if tagsStr.Some? && tagsStr.value != "" {
            var foundTags := TagRegex.FindAllTags(tagsStr.value);
            tagCounter := Update(tagCounter, foundTags);
          }
        }
      }
      i := i + 1;
    }
    assert es[..i] == es;
  }

  /** Phase 2: the records of the golden questions for `top50Tags`, in document order,
      with the number of rows scanned and the number of questions kept. */
  method FilterGolden(es: seq<Element>, top50Tags: set<string>)
    returns (questionsList: seq<GoldenQuestion>, totalPostsProcessed: nat, finalGoldenQuestions: nat)
    ensures questionsList == GoldenRecords(es, top50Tags)
    ensures totalPostsProcessed == RowCount(es)
    ensures finalGoldenQuestions == |questionsList|
  {
    questionsList := [];
    totalPostsProcessed := 0;
    finalGoldenQuestions := 0;
    var i := 0;
    while i < |es|
      invariant i <= |es|
      invariant totalPostsProcessed == RowCount(es[..i])
      invariant questionsList == GoldenRecords(es[..i], top50Tags)
      invariant finalGoldenQuestions == |questionsList|
    {
      var elem := es[i];
      RowCountStep(es, i);
      GoldenStep(es, i, top50Tags);
      if elem.tag == "row" {
        totalPostsProcessed := totalPostsProcessed + 1;
        if Get(elem, "PostTypeId") == Some("1") {
          var tagsStr := Get(elem, "Tags");
          if tagsStr.Some? && tagsStr.value != "" {
            var foundTags := TagRegex.FindAllTags(tagsStr.value);
            assert foundTags == TagsOf(elem);
            if exists t | t in foundTags :: t in top50Tags {
              var scoreStr := Get(elem, "Score");
              var acceptedAnswerId := Get(elem, "AcceptedAnswerId");
              if scoreStr.Some? && scoreStr.value != "" && acceptedAnswerId.Some? && acceptedAnswerId.value != ""
                 && ParseInt(scoreStr.value) > MinScore {
                finalGoldenQuestions := finalGoldenQuestions + 1;
                var record := GoldenQuestion(ParseInt(AttrOr(elem, "Id")), Get(elem, "Title"),
                                             Get(elem, "Body"), ParseInt(scoreStr.value), tagsStr.value);
                assert record == ToRecord(elem);
                questionsList := questionsList + [record];
              }
            }
          }
        }
      }
      i := i + 1;
    }
    assert es[..i] == es;
  }

  /** What one more scanned element adds to the golden records. */
  lemma GoldenStep(es: seq<Element>, i: nat, top: set<string>)
    requires i < |es|
    ensures GoldenRecords(es[..i + 1], top) ==
            GoldenRecords(es[..i], top) + if IsGolden(es[i], top) then [ToRecord(es[i])] else []
  {
    assert es[..i + 1] == es[..i] + [es[i]];
    var p := GoldenFilter(top);
    FilterSnoc(p, es[..i], es[i]);
    var before := Filter(p, es[..i]);
    var after := Filter(p, es[..i + 1]);
    assert after == before + if IsGolden(es[i], top) then [es[i]] else [];
    assert Records(after) == Records(before) + if IsGolden(es[i], top) then [ToRecord(es[i])] else [];
  }
}
