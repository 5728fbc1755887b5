/** `profile_all_tags` (src/scripts/2_count_all_tags.py): count every tag of the question
    rows among the first `post_limit` rows of the dump, then report the number of
    distinct tags, the number of rows scanned and the 50 most common tags. */
module TagProfile {
  import opened Options
  import opened Ints
  import opened TagRegex
  import opened Counters
  import opened Posts

  /** The default `post_limit`. */
  const DefaultPostLimit: int := 5000000
  /** The length of the most-common listing. */
  const ReportedTags: nat := 50

  datatype Outcome =
    | InputMissing
    | Report(uniqueTags: nat, postsProcessed: nat, topTags: seq<Entry<string>>)

  /** The report of the 50 most common tags among the tag occurrences `tags`. */
  function TopTagsReport(tags: seq<string>): seq<Entry<string>>
  {
    MostCommon(Tally(tags), ReportedTags)
  }

  /** The listing has min(50, number of distinct tags) tags, each with its number of
      occurrences. */
  lemma TopTagsReportSpec(tags: seq<string>)
    ensures |TopTagsReport(tags)| == Min(ReportedTags, |set t | t in tags|)
    ensures forall e | e in TopTagsReport(tags) :: e.count == multiset(tags)[e.key] > 0
  {
    var c := Tally(tags);
    TallySpec(tags);
    MostCommonSpec(c, ReportedTags);
    forall e | e in TopTagsReport(tags) ensures e.count == multiset(tags)[e.key] > 0 {
      var k :| 0 <= k < |c| && c[k] == e;
    }
  }

  /** The listing is in non-increasing count order, and no tag left out occurs more often
      than a listed one. */
  lemma TopTagsReportOrder(tags: seq<string>)
    ensures forall i, j | 0 <= i < j < |TopTagsReport(tags)| ::
              TopTagsReport(tags)[i].count >= TopTagsReport(tags)[j].count
    ensures forall t, e | t in tags && e in TopTagsReport(tags) && t !in Keys(TopTagsReport(tags)) ::
              multiset(tags)[t] <= e.count
  {
    var c := Tally(tags);
    TallySpec(tags);
    MostCommonSpec(c, ReportedTags);
    MostCommonDominates(c, ReportedTags);
  }

  /** The input that shows the tokenizer's loss at the script level: a question tagged
      `|a|b|` adds one occurrence of `a` and none of `b` to the counter, where the intended
      tokenizer counts both. */
  lemma PipeQuestionUndercounted()
    ensures var e := Element("row", map["PostTypeId" := "1", "Tags" := "|a|b|"]);
            && Count(Tally(AllTags([e])), "a") == 1
            && Count(Tally(AllTags([e])), "b") == 0
            && Count(Tally(ExtractTags("|a|b|")), "b") == 1
  {
    var e := Element("row", map["PostTypeId" := "1", "Tags" := "|a|b|"]);
    assert Get(e, "Tags") == Some("|a|b|");
    assert IsTaggedQuestion(e);
    PipeFormLosesTags();
    assert TagsOf(e) == ["a"];
    AllTagsSnoc([], e);
    assert AllTags([e]) == ["a"];
    TallySpec(["a"]);
    TallySpec(["a", "b"]);
  }

  /** The scan and its report: the rows processed are min(rows, max(post_limit, 1)), the
      unique-tag count is the number of distinct tags occurring in the scanned question
      rows, and the listing is the report of all tag occurrences in those rows. */
  method ProfileAllTags(inputExists: bool, es: seq<Element>, postLimit: int := DefaultPostLimit) returns (out: Outcome)
    ensures out.InputMissing? <==> !inputExists
    ensures out.Report? ==>
      var scanned := es[..ScanLength(es, postLimit)];
      && out.postsProcessed == RowCount(scanned) == Min(RowCount(es), Max(postLimit, 1))
      && out.uniqueTags == |set t | t in AllTags(scanned)|
      && out.topTags == TopTagsReport(AllTags(scanned))
  {
    if !inputExists {
      return InputMissing;
    }
    var tagCounter: Counter<string> := [];
    var postsProcessed := 0;
    var i := 0;
    while i < |es|
      invariant i <= |es|
      invariant ScanFrom(es, postLimit, i, postsProcessed) == ScanLength(es, postLimit)
      invariant postsProcessed == RowCount(es[..i])
      invariant tagCounter == Tally(AllTags(es[..i]))
    {
      var elem := es[i];
      RowCountStep(es, i);
      TagTallyStep(es, i);
      if elem.tag == "row" {
        postsProcessed := postsProcessed + 1;
        if Get(elem, "PostTypeId") == Some("1") {
          var tagsStr := Get(elem, "Tags");
          if tagsStr.Some? && tagsStr.value != "" {
            var foundTags := FindAllTags(tagsStr.value);
            tagCounter := Update(tagCounter, foundTags);
          }
        }
        assert tagCounter == Tally(AllTags(es[..i + 1]));
        if postsProcessed >= postLimit {
          i := i + 1;
          break;
        }
      } else {
        assert tagCounter == Tally(AllTags(es[..i + 1]));
      }
      i := i + 1;
    }
    ScanLengthSpec(es, postLimit);
    TallySpec(AllTags(es[..i]));
    out := Report(|tagCounter|, postsProcessed, MostCommon(tagCounter, ReportedTags));
  }
}
