# SO-Janitor-Agent in Dafny

A model of the logic in SO-Janitor-Agent, with proofs. SO-Janitor-Agent is a semantic search service over Stack Overflow questions, and this model covers the logic that sits under its I/O:

- **Corpus pipeline.** Four scripts read the Posts.xml dump.
  - `create_golden_dataset` finds the 50 most common tags. It then keeps the "golden" questions: questions that have a top-50 tag, a score above 5 and an accepted answer.
  - `profile_all_tags` counts tags with a post limit.
  - `profile_python_scores` builds a histogram of the scores of Python questions.
  - `create_search_index` drops rows whose Title or Body is missing. It embeds `Title + ". " + Body` and fills a flat L2 index. The identifier map is kept in lockstep with the index.
- **Query service.** `find_similar_questions` resolves each search position through the identifier map. It scores each distance with a three-zone piecewise-linear rule and formats a link.

## How the model is built

- The dump is a sequence of already-parsed elements. Each element is a tag name plus an attribute map (`Posts.Element`).
- Python's `Counter` is a sequence of entries in insertion order (`Counters`).
  - `update` and `c[k] += 1` are modelled as pure functions.
  - `most_common(n)` and `sorted(items(), reverse=True)[:n]` are modelled as a stable insertion sort by rank followed by a slice.
- The regex `[<|](.*?)[>|]` under `re.findall` is a recursive scanner (`TagRegex.FindAllTags`). The scripts are modelled with it as written, so on the `|a|b|` form they lose every second tag, as the program does (see Findings).
- The scripts' scan loops are methods with `while` loops. Each loop is proved against specification functions: the prefix-recursive `AllTags`, `PythonScores`, `PythonQuestionCount`, `RowCount` and `Filter`, and `ScanLength`, which runs forward from the start of the dump (`ScanFrom`) to the position where the scan stops.
- The FAISS index is a class holding a sequence of vectors (`SearchIndex.FlatIndex`).
- The embedder is a function parameter: a deterministic function from a string to a vector.
- The search is outside the model. Its positions and distances are the input of `Query.FindSimilarQuestions`.
- Distances and percentages are `real`. Python's `round(x, 2)` is round-half-even on the exact value.
- `int()` and `str()` on identifiers and scores are `Decimal.ParseInt` and `Decimal.IntToString`. They are proved to round-trip.

The post limit is checked after each row is processed. So a scan processes `min(rows, max(post_limit, 1))` rows, and the row that reaches the limit is counted. `Posts.ScanLengthSpec` proves this. The scripts' default limits (5,000,000 and 10,000,000) are the default values of the `postLimit` parameters, and `Posts.PositiveLimitSpec` gives `min(rows, post_limit)` for them.

## Model

| member | source | states |
|---|---|---|
| Scoring.RawSimilarity | src/main.py:105-118 | the pre-rounding score is at least 30; it lies in [90,100] for 0 ≤ d ≤ 0.3, strictly between 60 and 90 for 0.3 < d < 1.0, and in [30,60] for d ≥ 1.0 |
| Scoring.ScoreAnchors | src/main.py:106-118 | score(0) = 100, score(0.3) = 90, score(1.0) = 60, and score(d) = 30 for every d ≥ 1.5 |
| Scoring.ScoreMonotone | src/main.py:106-118 | the score never increases with distance, across both zone boundaries |
| Scoring.ScoreStrictWithinZones | src/main.py:106-118 | within the high zone, the medium zone, and the low zone up to 1.5, the score strictly decreases |
| Scoring.ScoreLipschitz | src/main.py:106-118 | the score changes by at most 60 per unit of distance, so it is continuous, in particular at 0.3 and 1.0 |
| Scoring.ClampIsIdentity | src/main.py:120 | `max(0, ·)` never changes the score |
| Scoring.Round2 | src/main.py:120 | `round(x, 2)` lies within 0.005 of x and has at most two decimals |
| Scoring.Round2Monotone | src/main.py:120 | rounding to two decimals is monotone |
| Scoring.Round2Exact | src/main.py:120 | rounding leaves a two-decimal value unchanged |
| Scoring.SimilarityPercent | src/main.py:105-120 | `similarity_percent` for one distance: the zone score, clamped at 0 and rounded to two decimals; its range and monotonicity are proved in `SimilarityPercentRange` and `SimilarityPercentMonotone` |
| Scoring.SimilarityPercentRange | src/main.py:105-120 | for every d ≥ 0 the returned percentage is in [30,100] and within 0.005 of the zone formula |
| Scoring.SimilarityPercentMonotone | src/main.py:105-120 | the returned percentage is non-increasing in distance |
| Query.MakeResult | src/main.py:100-129 | an entry's so_id is `str(id)` and parses back to the id; its link is the question-link prefix followed by the so_id; its distance is the given one and its percentage the score of that distance |
| Query.FindSimilarQuestions | src/main.py:98-132 | one entry per returned position, in search order, each built by `MakeResult`; entry i holds `str(id_map[indices[i]])` (Python indexing), the i-th distance, the score of that distance and the link for that id |
| Query.ResultsBestFirst | src/main.py:98-130 | when the search returns distances in ascending order, the entries' percentages are non-increasing (best match first) |
| Query.ResultsInRange | src/main.py:105-130 | every entry for a non-negative distance reports a percentage in [30,100] |
| Decimal.ParseInt | src/scripts/3_profile_python_scores.py:45 | `int(s)` on an optional sign followed by digits; that it inverts `str` is proved in `ParseIntToString` |
| Decimal.NatToDigits | src/main.py:100 | the decimal form of a natural number is made of digits only |
| Decimal.IntToString | src/main.py:100 | `str(n)` is non-empty and starts with `-` exactly when n is negative |
| Decimal.DigitsRoundTrip | src/main.py:100 | the decimal digits of a natural number read back as that number |
| Decimal.ParseIntToString | src/main.py:100 | `str(n)` is an integer literal and `int(str(n)) == n` |
| Decimal.IntToStringInjective | src/main.py:100 | distinct identifiers give distinct so_id strings |
| TagRegex.BodyLength | src/scripts/1_create_golden_dataset.py:45 | the lazy `(.*?)` capture stops at the first `>` or `|` and holds no newline; it fails exactly when a newline comes before every closing character |
| TagRegex.FindAllTags | src/scripts/1_create_golden_dataset.py:45 | the regex as written: every captured tag holds no `>`, no `|` and no newline |
| TagRegex.ExtractTags | src/scripts/1_create_golden_dataset.py:45 | the intended tokenizer: every captured tag holds no `>`, no `|` and no newline |
| TagRegex.BodyLengthOver | src/scripts/1_create_golden_dataset.py:45 | the capture runs over tag text up to the next closing character |
| TagRegex.OneTag | src/scripts/1_create_golden_dataset.py:45 | `<t>` or `\|t\|` yields t; the regex as written resumes after the closer, the intended tokenizer resumes at it |
| TagRegex.AngleRoundTrip | src/scripts/2_count_all_tags.py:41-42 | tokenizing the `<a><b>…` form returns exactly its tags, in order, duplicates included |
| TagRegex.AngleRoundTripAsWritten | src/scripts/2_count_all_tags.py:41-42 | the regex as written also returns exactly the tags of the `<a><b>…` form, in order, duplicates included |
| TagRegex.PipeBodyRoundTrip | src/scripts/2_count_all_tags.py:41-42 | tokenizing a `\|`-opened pipe body returns exactly its tags, in order |
| TagRegex.PipeRoundTrip | src/scripts/2_count_all_tags.py:41-42 | tokenizing the `\|a\|b\|…` form returns exactly its tags, in order |
| TagRegex.AgreeWithoutPipes | src/scripts/1_create_golden_dataset.py:45 | on every string without `|`, the regex as written and the intended tokenizer return the same tags |
| TagRegex.SkipPlain | src/scripts/1_create_golden_dataset.py:45 | text without an opening character starts no match |
| TagRegex.PipePairAsWritten | src/scripts/1_create_golden_dataset.py:45 | as written, of two pipe-form tags only the first is found |
| TagRegex.PipeBodyAsWritten | src/scripts/1_create_golden_dataset.py:45 | as written, a pipe body yields only the tags at even positions |
| TagRegex.PipeFormAsWritten | src/scripts/1_create_golden_dataset.py:45 | as written, the pipe form yields only every second tag |
| TagRegex.PipeFormLosesTags | src/scripts/1_create_golden_dataset.py:45 | `\|a\|b\|` yields `["a"]` as written and `["a","b"]` as intended |
| TagRegex.LonePipe | src/scripts/1_create_golden_dataset.py:45 | a lone `\|` starts no match |
| TagRegex.AngleExample | src/scripts/1_create_golden_dataset.py:45 | `<a><b>` yields `["a","b"]` with either tokenizer |
| Counters.Count | src/scripts/3_profile_python_scores.py:46 | `c[k]`, 0 for a key never counted; what updates do to it is proved in `IncrementCount`, `UpdateCount`, `TallySpec` and `CountAbsent` |
| Counters.Update | src/scripts/2_count_all_tags.py:43 | `Counter.update(ks)`, one `c[k] += 1` per element in order; its meaning is proved in `UpdateSpec` |
| Counters.Tally | src/scripts/2_count_all_tags.py:33-43 | the counter left by updating an empty `Counter()` with a list; its meaning is proved in `TallySpec` |
| Counters.Increment | src/scripts/3_profile_python_scores.py:46 | `c[k] += 1` keeps the counter's length or adds one entry; where that entry goes is proved in `IncrementAppends` and `IncrementInPlace`, its counts in `IncrementCount` |
| Counters.IncrementAppends | src/scripts/3_profile_python_scores.py:46 | a key not yet counted gets a new entry `(k, 1)` at the end, after every key counted before (the insertion order `most_common` breaks ties by); a key already counted adds no entry |
| Counters.IncrementInPlace | src/scripts/3_profile_python_scores.py:46 | in a valid counter, `c[k] += 1` on a counted key bumps its entry where it stands and leaves every other entry unchanged |
| Counters.KeysCons | src/scripts/2_count_all_tags.py:43 | the keys of a counter with one more entry in front |
| Counters.DistinctCons | src/scripts/2_count_all_tags.py:43 | distinct keys survive adding an entry with a new key in front |
| Counters.DistinctSize | src/scripts/2_count_all_tags.py:57 | a counter with distinct keys has as many entries as keys (`len(counter)`) |
| Counters.IncrementCount | src/scripts/3_profile_python_scores.py:46 | `c[k] += 1` adds 1 to k's count and changes no other count |
| Counters.IncrementKeys | src/scripts/3_profile_python_scores.py:46 | `c[k] += 1` adds k to the keys, and only k |
| Counters.IncrementValid | src/scripts/3_profile_python_scores.py:46 | `c[k] += 1` keeps keys distinct and counts positive |
| Counters.UpdateSpec | src/scripts/2_count_all_tags.py:43 | `update(ks)` adds each occurrence in ks to its key's count and keeps the counter valid |
| Counters.UpdateCount | src/scripts/2_count_all_tags.py:43 | `update(ks)` adds to each key's count the number of times it occurs in ks |
| Counters.UpdateKeys | src/scripts/2_count_all_tags.py:43 | `update(ks)` adds exactly the elements of ks to the keys, and adds `len(ks)` to the total |
| Counters.UpdateValid | src/scripts/2_count_all_tags.py:43 | `update(ks)` keeps keys distinct and counts positive |
| Counters.UpdateConcat | src/scripts/2_count_all_tags.py:43 | updating with two lists in turn is updating with their concatenation |
| Counters.TallySnoc | src/scripts/3_profile_python_scores.py:46 | counting one more occurrence of k with `c[k] += 1` gives the tally of the longer list |
| Counters.TallySpec | src/scripts/2_count_all_tags.py:43-57 | each count equals the number of occurrences; the keys are the distinct elements; the size is their number; the total is the list length; the counter is valid |
| Counters.InsertByRank | src/scripts/2_count_all_tags.py:61 | one insertion step of the sort adds one entry, at the front or after the first entry |
| Counters.SortByRank | src/scripts/2_count_all_tags.py:61 | the sort keeps the length |
| Counters.InsertByRankSorted | src/scripts/2_count_all_tags.py:61 | inserting into a ranked list keeps it in non-increasing rank order |
| Counters.InsertByRankPerm | src/scripts/2_count_all_tags.py:61 | inserting adds exactly the new entry (multiset and keys) and keeps keys distinct |
| Counters.SortByRankSpec | src/scripts/2_count_all_tags.py:61 | the sort is a permutation in non-increasing rank order with the same keys |
| Counters.EntryCount | src/scripts/2_count_all_tags.py:61 | in a counter with distinct keys, an entry's count is its key's count |
| Counters.SortedPrefix | src/scripts/2_count_all_tags.py:61 | a slice of the sort has min(n, size) entries, ranked, distinct, taken from the counter, and ranked at least as high as every entry left out |
| Counters.PrefixEntries | src/scripts/2_count_all_tags.py:61 | the entries of a slice of a permutation come from the counter with their counts |
| Counters.PrefixOrdered | src/scripts/2_count_all_tags.py:61 | a slice of a ranked list with distinct keys is ranked and has distinct keys |
| Counters.PrefixDominates | src/scripts/2_count_all_tags.py:61 | every entry of a slice of the ranked list ranks at least as high as every entry left out |
| Counters.MostCommon | src/scripts/2_count_all_tags.py:61 | `most_common(n)`, a stable sort by descending count then the first n entries; its meaning is proved in `MostCommonSpec` and `MostCommonDominates` |
| Counters.HighestKeys | src/scripts/3_profile_python_scores.py:64 | `sorted(items(), reverse=True)[:n]` on integer keys; its meaning is proved in `HighestKeysSpec` |
| Counters.MostCommonSpec | src/scripts/2_count_all_tags.py:61 | `most_common(n)` has min(n, size) entries with their true counts, in non-increasing count order, none left out with a higher count |
| Counters.CountAbsent | src/scripts/1_create_golden_dataset.py:52 | a key never counted has count 0 |
| Counters.MostCommonDominates | src/scripts/2_count_all_tags.py:61 | no key left out of `most_common(n)`, counted or not, has a higher count than a listed entry |
| Counters.HighestKeysSpec | src/scripts/3_profile_python_scores.py:64 | `sorted(items(), reverse=True)[:n]` has min(n, size) entries with their true counts, in strictly decreasing key order, none left out with a higher key |
| Seqs.Filter | src/scripts/4_create_search_index.py:45 | a filter keeps no more elements than the input has |
| Seqs.FilterMembers | src/scripts/4_create_search_index.py:45 | a filter keeps only elements of the input that satisfy the predicate |
| Seqs.FilterPositions | src/scripts/4_create_search_index.py:45 | the filter result is the input at increasing kept positions, and a position is kept iff its element satisfies the predicate |
| Seqs.FilterSnoc | src/scripts/1_create_golden_dataset.py:62-84 | filtering one more element appends it iff it satisfies the predicate |
| Seqs.FilterPrefix | src/scripts/1_create_golden_dataset.py:62-84 | the filter of a longer prefix extends the filter of a shorter one |
| Posts.AllTags | src/scripts/2_count_all_tags.py:37-43 | the tag occurrences that `re.findall` as written extracts from all tagged questions, in document order; one step of it is `AllTagsSnoc` |
| Posts.RowCount | src/scripts/2_count_all_tags.py:31-32 | the number of `row` elements; one step of it is `RowCountStep` |
| Posts.TagsOf | src/scripts/1_create_golden_dataset.py:42-45 | the tags `re.findall` as written reads from a question with Tags (none from any other element) hold no closing character and no newline |
| Posts.TagsOfAngleForm | src/scripts/1_create_golden_dataset.py:42-45 | a question whose Tags are in the `<a><b>` form yields exactly those tags, in order |
| Posts.TagsOfPipeForm | src/scripts/1_create_golden_dataset.py:42-45 | a question whose Tags are in the `\|a\|b\|` form yields only every second tag |
| Posts.AllTagsSnoc | src/scripts/1_create_golden_dataset.py:36-46 | one more element adds exactly its tags, at the end |
| Posts.TagTallyStep | src/scripts/2_count_all_tags.py:31-43 | one more element updates the counter with the tags `re.findall` as written extracts from it iff it is a question with Tags, and leaves it unchanged otherwise |
| Posts.RowCountStep | src/scripts/1_create_golden_dataset.py:63-64 | one more element adds 1 to the row count iff it is a `row` |
| Posts.ScanFrom | src/scripts/2_count_all_tags.py:47-49 | a scan resumed at position i, with the rows counted so far, stops at or after i and within the dump |
| Posts.ScanLength | src/scripts/2_count_all_tags.py:47-49 | a scan stops within the dump |
| Posts.ScanFromSpec | src/scripts/2_count_all_tags.py:31-49 | resumed at a position where the rows counted so far are under the limit, the scan processes min(rows, max(limit, 1)) rows |
| Posts.ScanStopsAfterRow | src/scripts/2_count_all_tags.py:47-49 | a scan that stops before the end of the dump stops right after a row |
| Posts.ScanStopsAt | src/scripts/2_count_all_tags.py:31-49 | when a row brings the count to max(limit, 1), the rows up to and including it number min(rows, max(limit, 1)) |
| Posts.ScanLengthSpec | src/scripts/2_count_all_tags.py:31-49 | the scan processes min(rows, max(post_limit, 1)) rows; an early stop comes right after the row that reached the limit |
| Posts.PositiveLimitSpec | src/scripts/2_count_all_tags.py:8-49 | with a positive `post_limit`, such as the default, the scan processes min(rows, post_limit) rows |
| TagProfile.TopTagsReport | src/scripts/2_count_all_tags.py:61 | the listing `tag_counter.most_common(50)`; its meaning is proved in `TopTagsReportSpec` and `TopTagsReportOrder` |
| TagProfile.TopTagsReportSpec | src/scripts/2_count_all_tags.py:57-61 | the top-50 listing has min(50, distinct tags) entries, each with its number of occurrences (positive) |
| TagProfile.TopTagsReportOrder | src/scripts/2_count_all_tags.py:61 | the top-50 listing is in non-increasing count order, with no omitted tag occurring more often than a listed one |
| TagProfile.PipeQuestionUndercounted | src/scripts/2_count_all_tags.py:40-43 | a question tagged `\|a\|b\|` adds one `a` and no `b` to the counter, where finding every tag would count one `b` |
| TagProfile.ProfileAllTags | src/scripts/2_count_all_tags.py:8-61 | `post_limit` defaults to 5,000,000; a missing input returns early; otherwise posts processed = min(rows, max(post_limit, 1)), unique tags = number of distinct tags in the scanned tagged questions, listing = top-50 report of all the tag occurrences `re.findall` as written extracts from them |
| ScoreProfile.IsPythonQuestion | src/scripts/3_profile_python_scores.py:38-41 | a question whose Tags contain `<python>` or `\|python\|`; it is what `ScanStep` and `ProfilePythonScores` count |
| ScoreProfile.PythonQuestionCount | src/scripts/3_profile_python_scores.py:38-42 | the number of Python questions, in document order; one step of it is `ScanStep` |
| ScoreProfile.PythonScores | src/scripts/3_profile_python_scores.py:41-46 | the Scores of the Python questions that have one, in document order; `ScoresAtMostQuestions` bounds its length |
| ScoreProfile.ScoresAtMostQuestions | src/scripts/3_profile_python_scores.py:41-46 | at most one score per Python question is added to the histogram |
| ScoreProfile.ScanStep | src/scripts/3_profile_python_scores.py:38-46 | one more element adds 1 to the Python count iff it is a Python question, and its score iff it also has a Score |
| ScoreProfile.HistogramSpec | src/scripts/3_profile_python_scores.py:38-46 | over any scanned dump, each histogram bucket counts the Python questions with exactly that score, and the histogram's total is at most `python_questions_found` |
| ScoreProfile.ReportedScoresSpec | src/scripts/3_profile_python_scores.py:61-69 | the highest-scores report has at most 20 entries in strictly decreasing score order with no omitted score higher; the most-common report has at most 10 in non-increasing count order with no omitted score more frequent |
| ScoreProfile.ProfilePythonScores | src/scripts/3_profile_python_scores.py:8-68 | `post_limit` defaults to 10,000,000; a missing input returns early; otherwise posts processed = min(rows, max(post_limit, 1)), every scanned Python question is counted, the histogram tallies the Scores of those that have one, and both reports are taken from it |
| GoldenDataset.TopTags | src/scripts/1_create_golden_dataset.py:52 | the set of tags of `most_common(50)`; its meaning is proved in `TopTagsSpec` |
| GoldenDataset.IsGolden | src/scripts/1_create_golden_dataset.py:68-76 | a question with Tags, a top-50 tag among those `re.findall` as written extracts, a Score, an AcceptedAnswerId and `int(Score) > 5`; `GoldenRecordsSpec` keeps exactly these |
| GoldenDataset.ToRecord | src/scripts/1_create_golden_dataset.py:78-84 | the record appended for a golden question; its fields are stated in `GoldenRecordsSpec` |
| GoldenDataset.GoldenRecords | src/scripts/1_create_golden_dataset.py:62-84 | the records of the golden questions (top-50 tag decided on the regex as written) in document order; its meaning is proved in `GoldenRecordsSpec` |
| GoldenDataset.TopTagsSpec | src/scripts/1_create_golden_dataset.py:52 | `top_50_tags` has at most 50 tags, and each selected tag's count is at least every unselected tag's count |
| GoldenDataset.Records | src/scripts/1_create_golden_dataset.py:78-84 | one record per golden question |
| GoldenDataset.GoldenRecordsSpec | src/scripts/1_create_golden_dataset.py:68-84 | a row is kept iff it is a question with Tags, a top-50 tag, a Score and an AcceptedAnswerId, and `int(Score) > 5`; records are in document order with Id and Score as integers and Title, Body and raw Tags unchanged |
| GoldenDataset.GoldenRecordsNonEmpty | src/scripts/1_create_golden_dataset.py:96-98 | some record is produced exactly when some element of the dump is golden |
| GoldenDataset.GoldenStep | src/scripts/1_create_golden_dataset.py:68-84 | one more element appends its record iff it is golden |
| GoldenDataset.ProfileTags | src/scripts/1_create_golden_dataset.py:33-50 | phase 1's counter is the tally of every tag occurrence `re.findall` as written extracts from every tagged question row |
| GoldenDataset.FilterGolden | src/scripts/1_create_golden_dataset.py:58-88 | phase 2, tokenizing with the regex as written, returns the golden records in document order, counts every `row` element, and its golden count equals the number of records |
| GoldenDataset.CreateGoldenDataset | src/scripts/1_create_golden_dataset.py:26-98 | a missing input returns early; otherwise `top_50_tags` is the 50 most common tags of the whole dump as the regex as written extracts them, the records are the golden questions for that set, the posts count is the number of rows, and the golden count is the number of records; the parquet file is written exactly when some element is golden for the whole dump's top 50 |
| SearchIndex.FlatIndex.NTotal | src/scripts/4_create_search_index.py:59 | `ntotal` is the number of vectors held |
| SearchIndex.FlatIndex.constructor | src/scripts/4_create_search_index.py:57 | a new index has the given dimension and no vectors |
| SearchIndex.FlatIndex.Add | src/scripts/4_create_search_index.py:58 | `add` appends the vectors, in order, after the ones already held |
| SearchIndex.DropMissing | src/scripts/4_create_search_index.py:45 | `dropna` keeps only rows with a Title and a Body, drawn from the input |
| SearchIndex.Embeddings | src/scripts/4_create_search_index.py:46-52 | one embedding per kept row |
| SearchIndex.IdColumn | src/scripts/4_create_search_index.py:65 | one identifier per kept row |
| SearchIndex.CreateSearchIndex | src/scripts/4_create_search_index.py:28-65 | a missing input returns early; with no rows left after `dropna` nothing is built; otherwise a new index of the embedder's dimension holds each kept row's embedding in order, and the identifier map is the kept rows' Id column, as long as the index |
| SearchIndex.IdMapCorrespondence | src/scripts/4_create_search_index.py:45-65 | `id_map[i]` is the Id of the row whose `Title + ". " + Body` produced vector i; rows are dropped exactly when Title or Body is missing, and the rest keep their order |
| EndToEnd.ResultsNameEmbeddedRows | src/main.py:98-102 | every search result names and links to the golden question whose text produced the vector at the searched position |

## Left out

- The FastAPI app, its lifespan hook, the `ml_models` dictionary and the root endpoint (src/main.py:36-79, 134-136) are transport and startup code.
- Pickle, FAISS and parquet reading and writing are library serialization and are not modelled. Neither are the output directories and the file-size report.
- The sentence-transformer model, the torch device choice, and the encoding of the query text are left out. The embedder is a function parameter. The search's positions and distances are the input of `Query.FindSimilarQuestions`.
- FAISS search internals are left out, including whether it pads with position -1 when `top_k` exceeds the index size.
  - `Query.FindSimilarQuestions` takes positions as given and applies Python list indexing: a negative position counts from the end.
  - `Query.FindSimilarQuestions` requires only that every position is valid for that indexing, because src/main.py:100 performs no other check.
- `Query.FindSimilarQuestions` is not checked against `np.float32` and Python float arithmetic. The scorer uses exact reals, and `round` is round-half-even on the exact value, so a float tie such as 2.675 may differ.
- XML streaming is left out: `ET.iterparse`, `elem.clear`, and the `ParseError` handler that returns early. The dump is a sequence of parsed elements.
- Progress printing and the printed summaries are left out. The summary values are the fields of each script's outcome.
- `ScoreProfile.ProfilePythonScores` requires `int(score_str)` to succeed on every score it reads; where the source would raise, the model does not follow. `GoldenDataset.CreateGoldenDataset` requires the same of Score and Id.
- `Decimal.ParseInt` accepts only an optional sign followed by ASCII digits. The surrounding whitespace and the `_` separators that Python's `int()` also accepts are not modelled.
- `Counters.SortByRank` is a stable sort, like Python's sort and `most_common`, so ties keep insertion order. The contracts state order and permutation but not that stability.
- `SearchIndex.CreateSearchIndex` requires every embedding to have the same length. That is what a sentence-transformer produces, and it is what `index.add` demands.
- With no rows left after `dropna`, the source fails while reading the embedding's second dimension. The model reports `EmptyCorpus` and builds nothing.
- `Scoring.ScoreStrictWithinZones` covers the low zone only up to 1.5. The code clamps at 1.5 (`min(1, ·)`), so the score is flat at 30 from there on. The code is followed, not a description of the low zone as strictly decreasing.
- src/scripts/debug_inspecter.py and EDA.py only print rows and DataFrame info. They are not part of this model.

## Findings

| source | as written | input that shows it | evidently intended | confidence | as-written member | corrected member |
|---|---|---|---|---|---|---|
| src/scripts/1_create_golden_dataset.py:45 (the same regex is at src/scripts/1_create_golden_dataset.py:71 and src/scripts/2_count_all_tags.py:42) | `re.findall(r'[<\|](.*?)[>\|]', tags)` consumes the `\|` that closes a tag, so it cannot open the next tag; on the pipe form only every second tag is found | Tags = `\|a\|b\|` gives `["a"]` | the comment at src/scripts/2_count_all_tags.py:41 says tags are found in either the `<tag>` or the `\|tag\|` form; finding every tag of the pipe form means `\|a\|b\|` gives `["a", "b"]` | high, not executed | TagRegex.FindAllTags, TagRegex.PipeFormLosesTags, Posts.TagsOfPipeForm, TagProfile.PipeQuestionUndercounted | TagRegex.ExtractTags, TagRegex.PipeRoundTrip |

The scripts are modelled as the program runs them, with `TagRegex.FindAllTags`, so the tag counts, `top_50_tags`, the golden filter and the top-50 report all reflect the loss on pipe-form Tags. The corrected tokenizer `TagRegex.ExtractTags` agrees with it on every Tags string without `|` (`TagRegex.AgreeWithoutPipes`), so on the `<a><b>` form the scripts' results are those of the intended program (`Posts.TagsOfAngleForm`).
