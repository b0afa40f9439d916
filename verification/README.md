# Exam-to-benchmark pipeline: a Dafny model of the exam-tree core

The exam-to-AI-benchmark pipeline turns Swiss professional exams into a
benchmark for language models. Every artefact it handles has the same shape.
That includes the extracted answer sheet, the solution sheet, a model's
answers and a judge's graded answers. The shape is a JSON object whose
`questions` list holds question objects, and a question may nest
`subquestions` to any depth.

This project models the tree logic that runs on top of that shape:

- **Building sheets**:
  - counting the answerable questions and summing points;
  - finishing an extracted answer sheet;
  - the empty solution-sheet template;
  - the image-size filter;
  - directory-name sanitising.
- **Reply cleaning**:
  - markdown-fence, wrapper-token and `<think>`-block removal;
  - the tolerant JSON reader.
- **Answer generation**: the evaluated model walks the tree with a
  three-attempt retry loop.
- **Grading**: the judge walks the tree, with a solution lookup and a
  three-attempt retry loop.
- **Merging**: `_ensure_answer_structure` forces a model's answer tree into
  the reference shape. Both the plain runner and the RAG runner's copy are
  modelled.
- **The judgment lifecycle**:
  - reset, then collect one judgment per run;
  - average, then inject maximum points;
  - write the online `grading_summary`.
- **RAG retrieved chunks**: reporting and removing them.
- **The standalone recompute tool** `fix_grading.py`.

Every recursive "for each question, then recurse into `subquestions`" helper
is modelled in one of two ways:

- as a function over the pre-order walk `Forest.Flatten`;
- as the generic in-place pass `Forest.MapTree`.

One lemma, `Forest.MapTreeFlatten`, relates the two. Input sheets are never
mutated in the model, because every operation is a pure function. This
matches the source's deep copies. Where the source mutates a sheet in place,
the model returns the new sheet.

Python runtime behaviour that is not re-implemented is passed in as an
oracle record, `JsonValues.Python`. It holds `float(str)`, `json.loads`,
`round(x, 2)` and `math.sqrt`. The chat client is an oracle too,
`Answering.ChatOracle`. It gives the cleaned completion for the n-th request
of a walk, given what the request asks. Numbers are exact reals.

Modules, one concept each:

- `JsonValues`: JSON values, `float()` and the oracles.
- `Exam`: sheets and questions.
- `Forest`: walks and passes.
- `Text`: Python string operations.
- `Fences`: reply cleaning.
- `Names`, `Images`.
- `Index`: last-wins dictionaries.
- `Merge`.
- `Judging`: init, collect, aggregate, inject.
- `Stats`.
- `Summary`: the online summary.
- `Recompute`: `fix_grading.py`.
- `Sheets`.
- `Answering`: the answer and grading walks.
- `Chunks`.
- `Benchmark`: the RAG runner's per-model flow.

## Model

| member | source | states |
|---|---|---|
| Text.Strip | benchmarking/model_pipeline.py:70 | `str.strip()` gives a text with no whitespace at either end. It is an infix of the input with only whitespace outside it. A text already trimmed is unchanged. |
| Text.StripIdempotent | benchmarking/model_pipeline.py:70 | Stripping a stripped reply changes nothing. |
| Text.Find | benchmarking/openrouter_client.py:63-66 | `find` returns -1 or an occurrence of the pattern at or after the start index. |
| Text.FindIsFirst | benchmarking/openrouter_client.py:63-66 | The index `find` returns is the first occurrence. -1 means there is no occurrence at or after the start. |
| Text.FindChar | processing/llm_helper.py:76 | `find("{")` is the first index holding the character, or -1 exactly when it does not occur. |
| Text.RFindChar | processing/llm_helper.py:77 | `rfind("}")` is the last index holding the character, or -1 exactly when it does not occur. |
| Text.RemoveAll | benchmarking/openrouter_client.py:51-52 | `replace(token, "")` never lengthens the text. It leaves a text without the token unchanged. A text containing a non-empty token loses at least that token's length. |
| Text.RemoveAllAtFirst | benchmarking/openrouter_client.py:51-52 | `replace(token, "")` keeps everything before the first occurrence `find` reports, drops that occurrence and continues on the text after it. With no occurrence the text is kept whole. Together with `Text.FindIsFirst` this fixes the result for every text. |
| Text.ReplaceChar | benchmarking/json_utils.py:20 | `replace(c, rep)` leaves a text without `c` unchanged. It removes every `c` when `rep` has none. It introduces no character that is in neither the text nor `rep`. |
| Fences.DropFences | benchmarking/openrouter_client.py:35-41 | The stripped text is its leading fence (see `Fences.LeadingFence`), then the result, then one closing ```` ``` ```` exactly when the text after the leading fence ends with one. The result is never longer than the stripped text, and a text with no fence at either end is returned as it is. |
| Fences.LeadingFence | benchmarking/openrouter_client.py:36-39 | The opening cut is a prefix of the text. It is empty exactly when the text does not start with ```` ``` ````. It begins with ```` ```json ```` whenever the text does, and is one of: nothing, ```` ``` ````, ```` ```json ```` or ```` ```json``` ````. |
| Fences.CleanJsonText | processing/llm_helper.py:58-68 | The cleaned text is trimmed and no longer than the reply. A reply without fences is only stripped. |
| Fences.FencedJsonUnwrapped | processing/llm_helper.py:58-68 | A reply ```` ```json{...}``` ```` is cleaned to exactly its brace-delimited body. |
| Fences.RemoveWrappers | benchmarking/openrouter_client.py:44-52 | Removing the wrapper tokens never lengthens the reply, and leaves a reply that contains none of them unchanged. |
| Fences.RemoveWrappersLast | benchmarking/openrouter_client.py:51-52 | The loop over the tokens: after the last token, the text is what the earlier tokens left with every occurrence of the last token deleted. With `Text.RemoveAllAtFirst` this fixes the cleaned text. |
| Fences.StripTagBlock | benchmarking/openrouter_client.py:59-70 | The loop's exit condition holds on the result: no end tag follows the first start tag. A text that already meets it, with no start tag or no end tag after the first one, is unchanged. Each removed block shortens the text by at least both tags. Both tags empty would loop forever, so one must be non-empty. |
| Fences.StripTagBlockAtFirst | benchmarking/openrouter_client.py:62-69 | One round of the loop: when the first start tag has an end tag after it, the result is that of the text with the span from the start tag through the end tag cut out, and the text on both sides kept. |
| Fences.StripTagBlockIdempotent | benchmarking/openrouter_client.py:59-70 | Removing `<think>` blocks twice is removing them once. |
| Fences.StripMarkdownFences | benchmarking/openrouter_client.py:33-57 | Every completion the client returns is whitespace-trimmed. |
| Fences.PlainReplyIsStripped | benchmarking/openrouter_client.py:33-57 | Some replies only lose their surrounding whitespace: those with no fence, no wrapper token and no `<think>` tag. |
| Fences.FencedReplyUnwrapped | benchmarking/openrouter_client.py:33-57 | A fenced JSON object reply without wrappers or `<think>` comes back as exactly the object text. |
| Fences.ParseJsonResponse | processing/llm_helper.py:70-85 | The tolerant reader has three outcomes. It uses the parse of the cleaned text whenever that parses. Otherwise it uses the parse of the span from the first `{` to the last `}` when that span exists and parses. It returns `{}` only when neither the text nor such a span parses. |
| Fences.ParseCleaned | processing/llm_helper.py:73-85 | The same three-way case split, on an already cleaned text: `{}` only when the text does not parse and no brace span parses. |
| Names.SanitizeName | benchmarking/json_utils.py:19-21 | A sanitised name holds no `/`, `:` or space. A name without them is unchanged. |
| Names.SanitizeIsPerCharacter | benchmarking/json_utils.py:20 | The three chained `replace` calls act as one left-to-right pass. The pass maps `/` to `__` and `:` and space to `_`. |
| Names.SanitizeLength | benchmarking/json_utils.py:20 | The sanitised name is longer by exactly the number of `/` characters. |
| Names.SanitizeIdempotent | benchmarking/json_utils.py:19-21 | Sanitising a sanitised name changes nothing. |
| Images.IsMeaningfulImage | processing/image_extractor.py:19-31 | A kept image meets the minimum width, height and byte size, and has positive height. |
| Images.MeaningfulExactly | processing/image_extractor.py:19-31 | The filter, in both directions and in integer terms, keeps exactly the images that meet all of these: minimum width and height, at least 1000 bytes, positive height, and width and height within a factor of 10 of each other. |
| Images.ZeroHeightRejected | processing/image_extractor.py:27-29 | A zero-height image has aspect ratio 0 and is always dropped. |
| Images.DefaultBoundaries | processing/image_extractor.py:13-31 | With the default 150-pixel minimums, a 150 by 1500 image of 1000 bytes is kept. One that is narrower than 150 pixels, has an aspect ratio below 0.1, or is under 1000 bytes is dropped. |
| Images.MonotoneInSize | processing/image_extractor.py:24-25 | A larger file never turns a kept image into a dropped one. |
| JsonValues.PyFloat | benchmarking/model_pipeline.py:194 | `float(v)` converts numbers to their value. It raises `TypeError` exactly for `null`, lists and objects. It raises `ValueError` only for strings that do not parse. |
| JsonValues.Member | benchmarking/model_pipeline.py:190 | `obj.get(key)` is absent exactly when no member has the key. Otherwise it is the value of the last member with that key, as `json.loads` keeps the last duplicate. |
| JsonValues.NumericConverts | benchmarking/fix_grading.py:36 | An `int`, `float` or `bool` converts under `float()` to the number it stands for. |
| Forest.FlattenCons | benchmarking/benchmarking_main.py:206-211 | The pre-order walk of a forest is its first question, then that question's subtree, then the siblings' walk. |
| Forest.TopLevelVisited | benchmarking/benchmarking_main.py:206-211 | Every top-level question is visited by the walk. |
| Forest.SubtreeVisited | benchmarking/benchmarking_main.py:206-211 | A visited question's whole subtree is visited too. |
| Forest.MapTree | benchmarking/benchmarking_main.py:188-196 | A recursive in-place pass keeps the list's length. It applies its step to every question's own keys. It keeps each `subquestions` key present or absent as it was. |
| Forest.MapTreeFlatten | benchmarking/benchmarking_main.py:188-196 | The pass visits every question at every depth exactly once, in pre-order. Position k of the walk afterwards is the step applied to position k of the walk before. |
| Forest.MapTreeKeeps | benchmarking/benchmarking_main.py:188-196 | If the step turns property p into p2, a pass over a tree where every question has p leaves every question with p2. |
| Forest.MapTreeIdempotent | benchmarking/benchmarking_main.py:188-196 | A pass whose step is idempotent and ignores `subquestions` is idempotent too. |
| Index.FirstKeys | benchmarking/benchmarking_main.py:149 | The keys of the `{q.get("question_id"): q}` comprehension are distinct, they are exactly the ids of the list, and they come in the order in which each id is first seen. |
| Index.ByKey | benchmarking/benchmarking_main.py:149 | Every id of the list is a key. Each key maps to a question carrying it, and no later question carries it: the last one wins. |
| Index.DistinctKeysAreIds | benchmarking/benchmarking_main.py:149-153 | With distinct ids, the loop over `ref_map.items()` visits every question in list order. |
| Index.DistinctByKey | benchmarking/benchmarking_main.py:149 | With distinct ids, each key maps back to the only question carrying it. |
| Index.NodeIndex | benchmarking/benchmarking_main.py:205-211 | `run_map` holds every id seen anywhere in the walk. It maps each to the last question in pre-order carrying it. |
| Index.PointsIndex | benchmarking/benchmarking_main.py:259-266 | `points_map` holds every id carried by a question that has `points`. It maps each to the last such question in pre-order. |
| Index.IndexBelow | benchmarking/benchmarking_main.py:205-211 | The last-wins map after the first n questions of the walk satisfies `IndexedBelow`: complete, correct, and pointing at the last occurrence. |
| Merge.MergeList | benchmarking/benchmarking_main.py:147-175 | `merge_questions` returns one question per distinct reference id, in first-seen order. Each question carries that id. |
| Merge.MergeKeys | benchmarking/benchmarking_main.py:153-173 | The loop over the reference keys emits one question per key, carrying that key, in key order. |
| Merge.CandidateFor | benchmarking/benchmarking_main.py:150-156 | A candidate is found exactly when some candidate question has the id. The one found is the last candidate question with that id, since later entries of `cand_map` overwrite earlier ones. |
| Merge.MergeNode | benchmarking/benchmarking_main.py:154-171 | A merged question is the reference question with only `answer_field`, `subquestions` and (RAG only) `retrieved_chunks` changed. A matched candidate's answer replaces the reference one. Without a match, an existing answer slot becomes `""`. The RAG copy also takes the candidate's chunks. |
| Merge.MergeNodeKids | benchmarking/benchmarking_main.py:161-171 | The sub-questions of a merged question are the reference sub-questions merged against the candidate's, or against none. |
| Merge.EnsureAnswerStructure | benchmarking/benchmarking_main.py:137-183 | An empty candidate becomes a copy of the reference. Its metadata has `error` set to the failure message, every other reference metadata key is kept, and no other key is added. Any other candidate keeps its own keys. It receives the merged question list, and the reference's `exam_metadata` when it has none. |
| Merge.MergeKeysAt | benchmarking/benchmarking_main.py:153-173 | Position i of the output merges the last reference question carrying the i-th key against that key's candidate. |
| Merge.MergeListAt | benchmarking/benchmarking_main.py:147-175 | With distinct reference ids the output has one question per reference question, in order. Each is merged against the candidate carrying its id. |
| Merge.MergeFromReference | benchmarking/benchmarking_main.py:153-173 | Every merged question at any depth is some reference question, differing only in the keys the merge sets. |
| Merge.MergeIdsFromReference | benchmarking/benchmarking_main.py:153-173 | Ids that occur only in the candidate never reach the merged tree. |
| Merge.UnmatchedAnswersBlank | benchmarking/benchmarking_main.py:165-171 | Against no candidate questions, every answer slot at every depth becomes `""`. |
| Merge.MergeSelf | benchmarking/benchmarking_main.py:147-175 | A reference with distinct sibling ids at every depth, merged against itself, comes back unchanged. |
| Merge.MergeNodeSelf | benchmarking/benchmarking_main.py:154-164 | A question merged against itself is unchanged when its sub-question ids are distinct. |
| Merge.MergeIdempotent | benchmarking/benchmarking_main.py:147-175 | Merging the merge's output against the same reference changes nothing, for every reference, including one whose siblings share an id. |
| Merge.MergeAgain | benchmarking/benchmarking_main.py:154-171 | A merged question, merged again against itself as candidate, is unchanged, whatever ids its reference's sub-questions carry. |
| Judging.OnQuestions | benchmarking/benchmarking_main.py:198-199 | A pass touches only `questions`, only when the key is present, and applies the recursive pass to it. |
| Judging.InitJudgments | benchmarking/benchmarking_main.py:186-199 | After the reset, every question at every depth has an empty `judgments` list and no `awarded_points` or `feedback`. No other sheet key changes. |
| Judging.InitOnlyResets | benchmarking/benchmarking_main.py:186-199 | Position by position in pre-order, only those three keys change. |
| Judging.InitIdempotent | benchmarking/benchmarking_main.py:186-199 | Resetting twice is resetting once. |
| Judging.RunMap | benchmarking/benchmarking_main.py:204-214 | `run_map` has every id of the run result at any depth. Each maps to a run question with that id, namely the last one in pre-order. |
| Judging.CollectJudgments | benchmarking/benchmarking_main.py:202-236 | Collecting changes only `questions`. Every graded question must already hold a `judgments` list, because the source appends without checking. |
| Judging.CollectEffect | benchmarking/benchmarking_main.py:216-236 | Position by position, a question whose id meets a run question with `awarded_points` gains exactly one judgment at the end. That judgment carries the judge, the run id, the awarded points and the feedback (`""` if missing). Every other question keeps its list, and nothing else changes anywhere in the tree. |
| Judging.AggregateJudgments | benchmarking/benchmarking_main.py:239-254 | Averaging changes only `questions`. |
| Judging.AggregateEffect | benchmarking/benchmarking_main.py:239-254 | Position by position, a question with judgments gets the mean of their numeric values, or the integer 0 if none is numeric. A question without judgments keeps its `awarded_points`. No other key changes. |
| Judging.AggregateWithinScores | benchmarking/benchmarking_main.py:244-246 | The average lies between any lower and upper bound of the numeric judgment values. |
| Judging.AggregateExample | benchmarking/benchmarking_main.py:244-248 | Judgments 2, 4 and a string average to 3.0. The non-numeric value is ignored. |
| Judging.AggregateIdempotent | benchmarking/benchmarking_main.py:239-254 | Averaging twice is averaging once. |
| Judging.MaxPoints | benchmarking/benchmarking_main.py:259-269 | `points_map` has every id carried by a solution question with `points`, at any depth. Each maps to the `points` of the last such question. |
| Judging.InjectEffect | benchmarking/benchmarking_main.py:271-279 | Position by position, a question whose id is in `points_map` takes those points. Every other question keeps its own, and no other key changes. |
| Judging.InjectIdempotent | benchmarking/benchmarking_main.py:257-279 | Injecting the same solution twice is injecting it once. |
| Stats.MeanBounds | benchmarking/fix_grading.py:79 | A mean lies between any lower and upper bound of the values. |
| Stats.SumBounds | benchmarking/fix_grading.py:79 | A sum of n values within [lo, hi] lies within [n·lo, n·hi]. |
| Stats.Variance | benchmarking/fix_grading.py:81 | The population variance is never negative. |
| Stats.NoSpread | benchmarking/fix_grading.py:81 | Values all equal to their mean have zero squared deviation. |
| Stats.Percent | benchmarking/fix_grading.py:84-85 | The guarded percentage is 0 when the total is not positive. Otherwise it is the value as a share of the total, times 100. |
| Stats.PercentRange | benchmarking/fix_grading.py:90 | A score within [0, total] is a percentage within [0, 100]. |
| Summary.Views | benchmarking/benchmarking_main.py:302-325 | The summary reads each question of the walk through its leafness, `points` and `judgments`, position by position. |
| Summary.PointsValue | benchmarking/benchmarking_main.py:310-314 | A missing or `null` `points` adds 0, and a numeric one adds its value. |
| Summary.JudgmentContributions | benchmarking/benchmarking_main.py:317-321 | A leaf adds to a `judge\|run` key exactly when one of its judgments for that key has numeric `awarded_points`. |
| Summary.ContributionKeys | benchmarking/benchmarking_main.py:302-328 | Over the whole walk, a key gets a run total exactly when some leaf has a numeric judgment for it. |
| Summary.KeyIndex | benchmarking/benchmarking_main.py:321 | `run_totals.get(key)` finds the key's entry exactly when the key is present. |
| Summary.RunTotals | benchmarking/benchmarking_main.py:321 | `run_totals` holds each key once. It holds exactly the keys that were added to, each with the sum of everything added under it. |
| Summary.RunTotalIsSum | benchmarking/benchmarking_main.py:316-321 | Each run total is the sum of that run's numeric judgment values over all leaves. Its key was scored by some leaf. |
| Summary.RunsReport | benchmarking/benchmarking_main.py:353-359 | `judge_runs` has one entry per run total. Each holds the rounded total and the rounded guarded percentage. |
| Summary.OnlineSummary | benchmarking/benchmarking_main.py:297-372 | The summary's `total_points` is the rounded sum of the leaves' points. Its `judge_runs` has exactly the keys some leaf scored, each once. Each entry is the run's rounded total and the rounded guarded percentage of `total_max_points`. With no scored run, the aggregation is all zero. Otherwise it holds the rounded mean of the run totals, the rounded square root of their population variance, and the rounded guarded percentages of both. |
| Summary.UpdateGradingSummary | benchmarking/benchmarking_main.py:297-372 | The update writes `grading_summary` and nothing else. The summary is that of the sheet's own walk. |
| Recompute.CalculateStatistics | benchmarking/fix_grading.py:67-102 | No totals give all zeros. Otherwise the average times the count is the sum of the totals. Both percentages, of the average and of the standard deviation, are 0 for a non-positive total and proportional otherwise. `judge_runs` has one entry per total, in order: the run's rounded total and its rounded guarded percentage. |
| Recompute.StdDevSquared | benchmarking/fix_grading.py:81-82 | With a correct `math.sqrt`, `std_dev_points` is non-negative and squares to the population variance of the run totals. |
| Recompute.LeafMean | benchmarking/fix_grading.py:41-56 | With numeric judgment values, the result times their count is their sum. Otherwise it is 0.0. |
| Recompute.FixLeafNode | benchmarking/fix_grading.py:30-56 | Only `awarded_points` changes, and only on a leaf. A leaf gets a float: the mean of its numeric judgment values, or 0.0 when it has none. |
| Recompute.FixedSummary | benchmarking/fix_grading.py:127-137 | `total_points` is the rounded total. `judge_runs` has one entry per run total, in order, each the rounded total and rounded guarded percentage. The aggregation is the rounded mean, the rounded standard deviation and their rounded percentages. With no runs, all four are `round(0.0, 2)`. |
| Stats.MeanOfIsMean | benchmarking/fix_grading.py:79 | Only one number, the mean, gives back the sum when multiplied by the count. |
| Stats.PercentOfIsPercent | benchmarking/fix_grading.py:84-85 | The guarded percentage is the only number that is 0 for a non-positive total and proportional to the value otherwise. |
| Recompute.Recompute | benchmarking/fix_grading.py:119-139 | The tool writes only `questions` and `grading_summary`. The questions go through one recursive pass. |
| Recompute.RecomputeLeaves | benchmarking/fix_grading.py:26-60 | Afterwards every leaf holds the float mean of its numeric judgments, or 0.0 when it has none. Every parent keeps its `awarded_points`, and nothing else changes. |
| Recompute.RecomputeKeepsViews | benchmarking/fix_grading.py:16-65 | The recompute leaves everything the summary reads as it was. |
| Recompute.RecomputeSummaryStable | benchmarking/fix_grading.py:119-139 | Running the tool twice writes the same `grading_summary`. |
| Recompute.RecomputeMatchesOnline | benchmarking/fix_grading.py:127-139 | For the same tree, the recomputed summary equals the one the online grading writes. |
| Recompute.StatisticsExample | benchmarking/fix_grading.py:67-102 | Run totals 7 and 5 out of 10 give mean 6, variance 1 and 60 percent. |
| Sheets.CountAnswerable | processing/llm_helper.py:87-96 | `_count_answerable_questions` counts the questions at any depth that have `answer_field` and no `subquestions` key. |
| Sheets.SumPoints | processing/llm_helper.py:98-110 | `_sum_points` adds the points of every question at any depth without a `subquestions` key. |
| Sheets.SumPointsIsSummaryTotal | processing/llm_helper.py:98-110 | With no empty sub-question list, `_sum_points` equals the summary's `total_max_points`. |
| Sheets.FillTop | processing/llm_helper.py:292-294 | `setdefault("answer_field", "")` changes only `answer_field`. A top-level question without `subquestions` and without a slot gets `""`. An existing slot, or a question with `subquestions`, is left as it is. |
| Sheets.FillAll | processing/llm_helper.py:292-294 | The fill is applied to each top-level question in place. |
| Sheets.FillAddsMissing | processing/llm_helper.py:291-296 | The count grows by exactly the number of slots filled. |
| Sheets.FinishAnswerSheet | processing/llm_helper.py:285-307 | The answer sheet holds the collected questions, in order, or none when `questions` is missing or not a list. A question that has an answer slot or `subquestions` is kept unchanged. A question with neither gets the slot `""` and nothing else. Its `total_questions` is the count of its answerable questions. |
| Sheets.NoPdfAnswerSheet | processing/llm_helper.py:119-129 | Without PDFs the sheet has an empty `questions` list and `total_questions` 0. |
| Sheets.NoPdfIsEmptyExtraction | processing/llm_helper.py:119-129 | The no-PDF sheet is the sheet an empty extraction finishes to. |
| Sheets.TemplateMetadata | processing/llm_helper.py:413-419 | The template keeps a non-empty answer-sheet metadata. Otherwise it uses profession and year. |
| Sheets.EmptySolutionSheet | processing/llm_helper.py:411-439 | The template has that metadata and the recursively copied questions, and nothing else. |
| Sheets.TemplateShape | processing/llm_helper.py:422-434 | Every question at every depth is kept, in order and with the same nesting. Only `solution_field` and `grading_criteria` are added, as `""`, where missing. |
| Sheets.TemplateKeepsCount | processing/llm_helper.py:422-434 | The template has as many answerable questions as its answer sheet. |
| Answering.AnswerAttempts | benchmarking/model_pipeline.py:66-79 | Per leaf, the answer is the first non-empty stripped reply, and earlier replies were empty. Three empty replies give `""` after exactly three requests. |
| Answering.AnswerTrimmed | benchmarking/model_pipeline.py:70-73 | The answer written is always trimmed. |
| Answering.FirstReplyTaken | benchmarking/model_pipeline.py:68-74 | A first reply that is not blank is taken, stripped, with no further request. |
| Answering.EmptyRepliesGiveUp | benchmarking/model_pipeline.py:76-79 | Three blank replies give the empty answer and use three requests. |
| Answering.AnswerQuestions | benchmarking/model_pipeline.py:38-81 | Only answerable leaves change, and only in `answer_field`. The new value is a trimmed string: the outcome of the retry loop over the replies to that leaf's own question. A parent changes only in its sub-questions, and other questions are untouched. The walk makes between one and three requests per chat site. |
| Answering.GenerateAnswers | benchmarking/model_pipeline.py:17-87 | The answered sheet differs from its input only in `questions`, which went through the answer walk. |
| Answering.AnsweredKeepsSites | benchmarking/model_pipeline.py:38-81 | The answer walk keeps parents and answerable leaves where they are, so grading makes as many chat sites. |
| Answering.PointsOf | benchmarking/model_pipeline.py:190-192 | Missing or `null` points read as 0. |
| Answering.ReadVerdictAsWritten | benchmarking/model_pipeline.py:177-204 | As written, a parse failure or a `ValueError` is caught. A non-object value, or points that are a list or object, escape the loop. Whenever nothing escapes, the result agrees with the intended reading. |
| Answering.ReadVerdict | benchmarking/model_pipeline.py:177-204 | As intended, a reply scores exactly when it parses to an object whose points convert. Nothing escapes. |
| Answering.MissingPointsScoreZero | benchmarking/model_pipeline.py:189-195 | Missing or `null` points score 0, and `feedback` defaults to `""`. |
| Answering.NumericPointsScored | benchmarking/model_pipeline.py:189-195 | Numeric points are recorded as the number they stand for. |
| Answering.NonObjectEscapes | benchmarking/model_pipeline.py:187-197 | A reply that parses to something other than an object escapes as written, and is retried as intended. |
| Answering.BareNumberReplyEscapes | benchmarking/model_pipeline.py:187-197 | The reply `5` escapes the loop as written. |
| Answering.ListPointsEscape | benchmarking/model_pipeline.py:194-197 | A `points` list escapes as written, and is retried as intended. |
| Answering.JudgeAttempts | benchmarking/model_pipeline.py:167-204 | Per leaf, the grade is that of the first reply that scores, and no earlier reply scored. If none of three replies scores, the result is 0 with `Error parsing judge response`, after exactly three requests. |
| Answering.JudgeAttemptsAsWritten | benchmarking/model_pipeline.py:167-204 | The loop as written ends `grade` exactly when some attempt raises an uncaught exception and every earlier attempt was malformed, so the loop reached it. Otherwise it finishes and agrees with the intended loop. |
| Answering.BareNumberEndsGrading | benchmarking/model_pipeline.py:167-204 | A first judge reply of `5` ends `grade` as written, while the intended loop asks again. |
| Answering.SolutionMap | benchmarking/model_pipeline.py:103-112 | `solution_map` maps each id to a solution question carrying it. |
| Answering.UnknownIdDefaults | benchmarking/model_pipeline.py:153-156 | A leaf whose id occurs nowhere in the solution sheet is graded against `N/A`, `N/A` and 0 points. |
| Answering.KnownIdUsesLast | benchmarking/model_pipeline.py:103-156 | A leaf whose id occurs in the solution sheet is graded against the last solution question with that id. |
| Answering.GradeRequestFor | benchmarking/model_pipeline.py:153-165 | The grading request carries the leaf's text and its answer, with `""` for a missing answer. An id missing from `solution_map` gets `"N/A"`, `"N/A"` and 0 points. A known id takes the solution, criteria and points of its solution question, each defaulting the same way when absent. |
| Answering.GradeQuestions | benchmarking/model_pipeline.py:132-204 | Only answerable leaves change, and only in `awarded_points` and `feedback`: to a float score, or to the failure marker. The grade is the outcome of the retry loop over the judge's replies to that leaf's own request, built from its solution lookup. Parents change only in their sub-questions. The walk makes between one and three requests per chat site. |
| Answering.GradeSheet | benchmarking/model_pipeline.py:97-209 | The graded sheet differs from the model answers only in `questions`, which went through the grading walk. |
| Chunks.EntriesCover | benchmarking/benchmarking_rag_main.py:186-196 | Every question carrying chunks has its report entry. A walk without chunks reports nothing, and vice versa. |
| Chunks.ReportIsWalkFilter | benchmarking/benchmarking_rag_main.py:186-199 | The recursive report is exactly the walk filtered to the questions with chunks, in pre-order. |
| Chunks.ChunkReport | benchmarking/benchmarking_rag_main.py:182-201 | `_save_retrieved_chunks` reports one entry per question carrying chunks, at any depth, in pre-order, and no other. |
| Chunks.RemoveChunks | benchmarking/benchmarking_rag_main.py:203-214 | After removal no question at any depth carries `retrieved_chunks`. No other sheet key changes. |
| Chunks.RemoveOnlyChunks | benchmarking/benchmarking_rag_main.py:203-214 | Position by position, removal changes `retrieved_chunks` and nothing else. |
| Chunks.RemoveChunksIdempotent | benchmarking/benchmarking_rag_main.py:203-214 | Removing twice is removing once. |
| Chunks.ReportAfterRemoval | benchmarking/benchmarking_rag_main.py:119-124 | After removal the report is empty. |
| Chunks.RagMergeIsPlainMerge | benchmarking/benchmarking_rag_main.py:227-251 | The RAG merge and the plain merge differ only in `retrieved_chunks`. |
| Chunks.RagNodeIsPlainNode | benchmarking/benchmarking_rag_main.py:232-249 | The same, for one merged question and its subtree. |
| Chunks.RagStructureIsPlainStructure | benchmarking/benchmarking_rag_main.py:218-259 | Once chunks are removed, the RAG runner's merged answers are the plain runner's. |
| Benchmark.InitIsJudgedByNone | benchmarking/benchmarking_rag_main.py:132-133 | A fresh reset copy carries no judgments yet. |
| Benchmark.CollectNodeExtends | benchmarking/benchmarking_main.py:217-230 | For one question, run k+1 appends at most one judgment, by this judge, after the judgments of runs 1..k. |
| Benchmark.CollectExtendsJudged | benchmarking/benchmarking_rag_main.py:138-145 | Collecting run k+1 keeps every question's judgments by one judge, at most one per run, in increasing run order. |
| Benchmark.CollectKeepsChunkFree | benchmarking/benchmarking_rag_main.py:145 | Collecting keeps a chunk-free sheet chunk-free. |
| Benchmark.InitKeepsChunkFree | benchmarking/benchmarking_rag_main.py:132-133 | Resetting keeps a chunk-free sheet chunk-free. |
| Benchmark.CollectRuns | benchmarking/benchmarking_rag_main.py:138-145 | After all runs, every question carries at most one judgment per run by this judge, with run ids in 1..num_judge_runs in increasing order. Chunk-freeness is kept, and only `questions` changes. |
| Benchmark.AggregateKeeps | benchmarking/benchmarking_rag_main.py:147 | Averaging keeps the judgments and the absence of chunks. |
| Benchmark.InjectKeeps | benchmarking/benchmarking_rag_main.py:148 | Injecting maximum points keeps the judgments and the absence of chunks. |
| Benchmark.JudgeRun | benchmarking/benchmarking_rag_main.py:130-149 | One judge's graded sheet carries that judge's per-run judgments. It is chunk-free when its input was. Its summary is the summary of its own final tree, after averaging and injection. |
| Benchmark.JudgeAll | benchmarking/benchmarking_rag_main.py:130-149 | There is one graded sheet per judge, in order. Each carries only that judge's judgments, one per run at most. The judges are the keys of `judge_models`, so no name repeats. |
| Benchmark.BenchmarkModel | benchmarking/benchmarking_rag_main.py:110-149 | The runner has three outputs. The chunk report is that of the merged answers. The written answers are the merged answers without chunks. The graded sheets are one per judge, each chunk-free and judged by that judge only. |

## Left out

- Network calls, retries with back-off, prompt texts and chat history. The chat client is an oracle that answers the n-th request of a walk, given what the request asks. The history a request carries is not part of it. The oracle stands for the completion after the client's own clean-up (`Fences.StripMarkdownFences`).
- File I/O, directory layout, timestamps, metadata enrichment (`_enrich_metadata`, `_enrich_grading_metadata`), PDF handling and page rendering. The orchestration that selects exams and models is left out too. These do not touch the question tree.
- The RAG retrieval stack and the RAG answer pipeline (`model_pipeline_rag.py`). The RAG runner's generated answers are a parameter of `Benchmark.BenchmarkModel`.
- IEEE floating point. Numbers are exact reals, and `round(x, 2)`, `math.sqrt` and `float(str)` are oracles.
- Decoding JSON text into questions, and the order of dictionary keys when a sheet is written. Objects in replies keep their members in document order. `json.loads` itself is an oracle.
- `question_id` values are strings. An explicit `null` id is treated like a missing one.
- `judge|run` keys are pairs (judge, run). A decimal run id contains no `|`, so the pair determines the string.
- The answer-sheet extraction prompt. If the extraction reply parses to something other than an object, the source's `.get` would raise. `Sheets.FinishAnswerSheet` starts from the reply's `questions` value.
- `_sum_points` treats a question with `"subquestions": []` as a parent, while the summary treats it as a leaf. `Sheets.SumPointsIsSummaryTotal` therefore assumes no empty sub-question list.
- The online averaging writes the integer `0` when no judgment is numeric, while `fix_grading.py` writes `0.0`. Both are modelled as written.
- Answering.AnswerQuestions: the walk's contract says each leaf's answer comes from the retry loop on replies to its own question. It does not say at which request index that loop started, because the index depends on every earlier site of the walk.
- Answering.GradeQuestions: the walk's contract says each leaf's grade comes from the retry loop on replies to its own request. It does not say at which request index that loop started, for the same reason.
- Answering.GradeQuestions: the model follows the intended loop (`Answering.JudgeAttempts`). The loop as written is `Answering.JudgeAttemptsAsWritten`; see Findings.

## Findings

| source | as written | input that shows it | evidently intended | confidence | as-written member | corrected member |
|---|---|---|---|---|---|---|
| benchmarking/model_pipeline.py:187-197 | The grading `try` catches only `JSONDecodeError` and `ValueError`. When the judge's reply parses to something other than an object, `result.get` raises `AttributeError`. That exception escapes the retry loop and ends the whole `grade` call. | judge reply `5` | a reply without usable points is malformed and retried, ending at 0 points with the error feedback | not executed | Answering.JudgeAttemptsAsWritten (with Answering.ReadVerdictAsWritten, Answering.NonObjectEscapes, Answering.BareNumberReplyEscapes, Answering.BareNumberEndsGrading) | Answering.JudgeAttempts (with Answering.ReadVerdict) |
| benchmarking/model_pipeline.py:194-197 | `float(points_val)` on a list or object raises `TypeError`, which the loop does not catch. | judge reply `{"points": [1]}` | the reply is malformed and retried | not executed | Answering.ListPointsEscape (with Answering.ReadVerdictAsWritten) | Answering.ReadVerdict |
