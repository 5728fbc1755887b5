/** `profile_python_scores` (src/scripts/3_profile_python_scores.py): among the first
    `post_limit` rows of the dump, count the Python questions and build a histogram of
    their scores, then report the 20 highest scores and the 10 most common ones. */
module ScoreProfile {
  import opened Options
  import opened Ints
  import opened Decimal
  import opened Counters
  import opened Posts

  /** The default `post_limit`. */
  const DefaultPostLimit: int := 10000000
  /** The length of the highest-scores listing. */
  const ReportedHighest: nat := 20
  /** The length of the most-common listing. */
  const ReportedCommon: nat := 10

  /** `sub in s` for strings. */
  predicate Contains(s: string, sub: string)
    decreases |s|
  {
    sub <= s || (s != [] && Contains(s[1..], sub))
  }

  /** A question whose Tags attribute names the `python` tag in either form. */
  predicate IsPythonQuestion(e: Element)
  {
    && IsQuestion(e)
    && Truthy(Get(e, "Tags"))
    && (Contains(Get(e, "Tags").value, "<python>") || Contains(Get(e, "Tags").value, "|python|"))
  }

  /** A Python question that has a (non-empty) Score attribute. */
  predicate IsScoredPythonQuestion(e: Element)
  {
    IsPythonQuestion(e) && Truthy(Get(e, "Score"))
  }

  /** The scores added to the histogram, in document order. */
  function PythonScores(es: seq<Element>): seq<int>
  {
    if es == [] then []
    else
      var e := es[|es| - 1];
      PythonScores(es[..|es| - 1]) + if IsScoredPythonQuestion(e) then [ParseInt(Get(e, "Score").value)] else []
  }

  /** The number of Python questions, in document order. */
  function PythonQuestionCount(es: seq<Element>): nat
  {
    if es == [] then 0
    else PythonQuestionCount(es[..|es| - 1]) + if IsPythonQuestion(es[|es| - 1]) then 1 else 0
  }

  /** `int(score_str)` succeeds on every score the scan reads. */
  ghost predicate ScoresParse(es: seq<Element>)
  {
    forall e | e in es && IsScoredPythonQuestion(e) :: IsIntLiteral(Get(e, "Score").value)
  }

  /** Only Python questions contribute scores, at most one each. */
  lemma {:induction false} ScoresAtMostQuestions(es: seq<Element>)
    ensures |PythonScores(es)| <= PythonQuestionCount(es)
  {
    if es != [] {
      ScoresAtMostQuestions(es[..|es| - 1]);
    }
  }

  /** What one more scanned element adds to the question count and to the scores. */
  lemma ScanStep(es: seq<Element>, i: nat)
    requires i < |es|
    ensures PythonQuestionCount(es[..i + 1]) ==
            PythonQuestionCount(es[..i]) + if IsPythonQuestion(es[i]) then 1 else 0
    ensures PythonScores(es[..i + 1]) ==
            PythonScores(es[..i]) + if IsScoredPythonQuestion(es[i]) then [ParseInt(Get(es[i], "Score").value)] else []
  {
    assert es[..i + 1] == es[..i] + [es[i]];
    assert es[..i + 1][..i] == es[..i];
  }

  datatype Outcome =
    | InputMissing
    | Report(pythonQuestionsFound: nat, postsProcessed: nat, histogram: Counter<int>,
             highestScores: seq<Entry<int>>, mostCommonScores: seq<Entry<int>>)

  /** The histogram of the scanned dump holds, for each score, the number of Python
      questions with exactly that score, and its total is at most the number of Python
      questions found. */
  lemma HistogramSpec(es: seq<Element>)
    ensures forall s :: Count(Tally(PythonScores(es)), s) == multiset(PythonScores(es))[s]
    ensures Total(Tally(PythonScores(es))) <= PythonQuestionCount(es)
  {
    ScoresAtMostQuestions(es);
    TallySpec(PythonScores(es));
  }

  /** The highest-scores listing has at most 20 entries in strictly decreasing score order,
      none left out above a listed score; the most-common listing has at most 10 entries
      in non-increasing count order, none left out more frequent than a listed one. */
  lemma ReportedScoresSpec(scores: seq<int>)
    ensures |HighestKeys(Tally(scores), ReportedHighest)| <= ReportedHighest
    ensures forall i, j | 0 <= i < j < |HighestKeys(Tally(scores), ReportedHighest)| ::
              HighestKeys(Tally(scores), ReportedHighest)[i].key > HighestKeys(Tally(scores), ReportedHighest)[j].key
    ensures forall e, f | e in Tally(scores) && e !in HighestKeys(Tally(scores), ReportedHighest)
                        && f in HighestKeys(Tally(scores), ReportedHighest) :: f.key >= e.key
    ensures |MostCommon(Tally(scores), ReportedCommon)| <= ReportedCommon
    ensures forall i, j | 0 <= i < j < |MostCommon(Tally(scores), ReportedCommon)| ::
              MostCommon(Tally(scores), ReportedCommon)[i].count >= MostCommon(Tally(scores), ReportedCommon)[j].count
    ensures forall e, f | e in Tally(scores) && e !in MostCommon(Tally(scores), ReportedCommon)
                        && f in MostCommon(Tally(scores), ReportedCommon) :: f.count >= e.count
  {
    TallySpec(scores);
    HighestKeysSpec(Tally(scores), ReportedHighest);
    MostCommonSpec(Tally(scores), ReportedCommon);
  }

  /** The scan and its report: the rows processed are min(rows, max(post_limit, 1)), every
      scanned Python question is counted (with a Score or not), and the histogram is the
      tally of the scores of the scanned Python questions that have one. */
  method ProfilePythonScores(inputExists: bool, es: seq<Element>, postLimit: int := DefaultPostLimit) returns (out: Outcome)
    requires ScoresParse(es[..ScanLength(es, postLimit)])
    ensures out.InputMissing? <==> !inputExists
    ensures out.Report? ==>
      var scanned := es[..ScanLength(es, postLimit)];
      && out.postsProcessed == RowCount(scanned) == Min(RowCount(es), Max(postLimit, 1))
      && out.pythonQuestionsFound == PythonQuestionCount(scanned)
      && out.histogram == Tally(PythonScores(scanned))
      && out.highestScores == HighestKeys(out.histogram, ReportedHighest)
      && out.mostCommonScores == MostCommon(out.histogram, ReportedCommon)
  {
    if !inputExists {
      return InputMissing;
    }
    var scoreCounter: Counter<int> := [];
    ghost var scores: seq<int> := [];
    var postsProcessed := 0;
    var pythonQuestionsFound := 0;
    var i := 0;
    while i < |es|
      invariant i <= |es|
      invariant ScanFrom(es, postLimit, i, postsProcessed) == ScanLength(es, postLimit)
      invariant postsProcessed == RowCount(es[..i])
      invariant pythonQuestionsFound == PythonQuestionCount(es[..i])
      invariant scores == PythonScores(es[..i])
      invariant scoreCounter == Tally(scores)
    {
      var elem := es[i];
      RowCountStep(es, i);
      ScanStep(es, i);
      if elem.tag == "row" {
        postsProcessed := postsProcessed + 1;
        if Get(elem, "PostTypeId") == Some("1") {
          var tagsStr := Get(elem, "Tags");
          if tagsStr.Some? && tagsStr.value != ""
             && (Contains(tagsStr.value, "<python>") || Contains(tagsStr.value, "|python|")) {
            assert IsPythonQuestion(elem);
            pythonQuestionsFound := pythonQuestionsFound + 1;
            var scoreStr := Get(elem, "Score");
            if scoreStr.Some? && scoreStr.value != "" {
              assert IsScoredPythonQuestion(elem);
              var score := ParseInt(scoreStr.value);
              TallySnoc(scores, score);
              scoreCounter := Increment(scoreCounter, score);
              scores := scores + [score];
            } else {
              assert !IsScoredPythonQuestion(elem);
            }
          } else {
            assert !IsPythonQuestion(elem);
          }
        } else {
          assert !IsPythonQuestion(elem);
        }
        assert scores == PythonScores(es[..i + 1]);
        assert pythonQuestionsFound == PythonQuestionCount(es[..i + 1]);
        if postsProcessed >= postLimit {
          assert ScanFrom(es, postLimit, i, postsProcessed - 1) == i + 1;
          i := i + 1;
          break;
        }
      } else {
        assert !IsPythonQuestion(elem);
      }
      i := i + 1;
    }
    assert i == ScanLength(es, postLimit);
    assert scoreCounter == Tally(PythonScores(es[..i]));
    ScanLengthSpec(es, postLimit);
    out := Report(pythonQuestionsFound, postsProcessed, scoreCounter,
                  HighestKeys(scoreCounter, ReportedHighest), MostCommon(scoreCounter, ReportedCommon));
  }
}
