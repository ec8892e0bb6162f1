# UniWA hotel search engine: query engine model

This project models the query engine of the UniWA hotel search engine.

- The engine builds an inverted index over the preprocessed hotel records.
- It parses a free-text query into `(operator, terms)` clauses, where the operators are `AND`, `OR` and `NOT` and `AND` is the default.
- It evaluates those clauses as a left-to-right boolean filter over the document ids.
- It ranks the query's terms over the whole corpus with TF-IDF and with BM25 (k1 = 1.5, b = 0.75). Scores are summed per document and sorted best-first; the sort is stable.
- Offline, it turns canned queries into a ground truth: the names of the documents each query's boolean search selects.
- It evaluates the TF-IDF ranking against that ground truth with MAP@10 and the per-position relevance labels.

The parser and the boolean evaluator appear as identical copies in four files: `query.py`, `server.py`, `performance.py` and `ground_truth.py`. The two scorers and `rank_documents` appear in the first three. The model defines each of them once. The rows below cite the copy that each member's statement concerns.

The modules follow the program's components:

| file | module | models |
|---|---|---|
| `common.dfy` | `Common` | `Option`/`Result`, `range(n)`, counting, flattening, repeat-free sequences |
| `tokens.dfy` | `Tokens` | `str.split()` on whitespace |
| `corpus.dfy` | `Corpus` | a processed hotel record, the index type, term frequency and document length |
| `parser.dfy` | `QueryParser` | `parse_query` |
| `boolean_search.dfy` | `BooleanSearch` | `boolean_search` |
| `scoring.dfy` | `Scoring` | `calculate_tf_idf`, `calculate_bm25` |
| `ranker.dfy` | `Ranker` | `rank_documents` |
| `inverted_index.dfy` | `IndexBuilder` | `build_inverted_index` |
| `ground_truth.dfy` | `GroundTruth` | `create_ground_truth` |
| `performance.dfy` | `Evaluation` | `mean_average_precision_at_k`, `evaluate_metrics` |
| `server.dfy` | `Server` | the `/search` handler |

Python's exceptions are modelled as `Err` values:

- `TypeError` from `set.union()` when a term group is empty.
- `ValueError` for an unknown operator or ranking model.
- `ZeroDivisionError` from BM25 when the corpus has no text.
- `IndexError` when a posting names a document the corpus lacks.

Three things outside the core become parameters:

- The query-term normaliser (lower-case, tokenise, keep alphabetic tokens that are not stop words, stem) becomes `normalize: string -> seq<string>`.
- The natural logarithm becomes `ln: real -> real`.
- The corpus and index are passed in as values instead of being read from JSON files.

Floats become exact reals.

When a term group is empty, `boolean_search` calls `set.union()` with no arguments, which raises `TypeError`, so the model returns `Err(EmptyTermGroup)`. `QueryParser.ParsedClausesWellFormed` and `BooleanSearch.ParsedQueryEvaluates` show that `parse_query` never produces such a group.

## Model

| member | source | states |
|---|---|---|
| Common.Range | server.py:137 | `range(n)`: length `n`, position `i` holds `i`, and the members are exactly `0..n-1` |
| Common.RangeSet | query.py:55 | `set(range(total_docs))` holds exactly the ids below `total_docs` |
| Common.RangeSetSize | query.py:55 | the full id set has `total_docs` members |
| Common.CountAppend | query.py:75-76 | `list.count` of a concatenation is the sum of the counts |
| Common.CountPositive | query.py:79 | a count is positive iff the item occurs |
| Common.FlattenMembership | inverted_index.py:15-16 | an item is in the extended term list iff some feature phrase holds it |
| Common.DistinctCardinality | ground_truth.py:87 | a list without repeats has as many distinct members as entries |
| Tokens.LeadingWord | query.py:32 | the first word is a non-blank prefix that stops at whitespace or the end, and is non-empty when the text starts with a non-blank |
| Tokens.SplitYieldsWords | query.py:32 | every token `split()` returns is non-empty and has no whitespace |
| Tokens.SplitBlank | query.py:32 | a blank query splits into no tokens |
| Tokens.SplitJoin | query.py:32 | splitting words joined by single spaces gives the words back |
| Corpus.FeatureCountFlatten | query.py:76 | the summed per-feature counts equal the count over all feature terms |
| Corpus.FeatureLengthFlatten | query.py:96-97 | the summed feature lengths equal the number of feature terms |
| Corpus.FrequencyCountsIndexedTerms | query.py:75-76 | term frequency is the term's count in description plus features, it is positive iff the term occurs there, and document length is the number of those terms |
| QueryParser.OperatorAfter | query.py:36-38 | the operator in force is the starting one or one of `AND`/`OR`/`NOT` |
| QueryParser.ParseQuery | query.py:25-44 | the loop's clause list equals the parse of the query's tokens from the default `AND` |
| QueryParser.ParsedClausesWellFormed | ground_truth.py:25-44 | every clause carries a known operator and a non-empty term group |
| QueryParser.OperatorAfterNoOperator | query.py:34 | with no operator token, `AND` stays in force |
| QueryParser.OperatorAfterIsLatest | query.py:37-38 | the operator in force is the last operator token read |
| QueryParser.ClauseOrigin | query.py:39-42 | each clause comes from a non-operator token that normalises to its terms, tagged with the operator in force before that token |
| QueryParser.ParseAppend | query.py:36-42 | parsing concatenated token lists is parsing the first, then the second under the operator left in force |
| QueryParser.OperatorRunCollapses | query.py:37-38 | of two consecutive operators only the second counts |
| QueryParser.LeadingAndIsNoOp | performance.py:35 | a leading `AND` changes nothing, because `AND` is already the default |
| QueryParser.OperatorsOnlyParseEmpty | query.py:36-38 | a query made only of operators parses to no clause |
| QueryParser.CaseVariantsAreOrdinaryTokens | query.py:31 | operators are case-sensitive: `And`/`and` are not operators; `And` is normalised like any word and adds a clause under the operator in force only if a term is left (the program's normaliser drops it as a stop word) |
| QueryParser.DroppedTokenIsInvisible | query.py:39-42 | a non-operator token that normalises to nothing, such as the stop word in `Taxi service And Entrance`, neither adds a clause nor changes the operator for later tokens |
| QueryParser.QueryTextParsesTokens | query.py:32-42 | a query of words separated by spaces parses exactly as its word list |
| QueryParser.ProcessedTermsFacts | server.py:134 | the flattened query terms are empty iff there is no clause, and they are exactly the terms of the clauses |
| BooleanSearch.TermDocs | query.py:57 | a term group's documents are exactly those filed under one of its terms |
| BooleanSearch.Combine | query.py:59-66 | `AND` gives a subset of both sides, `OR` a superset of both, `NOT` a subset of the left side disjoint from the group, and any other operator is the unsupported-operator error |
| BooleanSearch.BooleanSearch | query.py:47-68 | the loop's result equals the left-to-right evaluation of the clauses |
| BooleanSearch.ErrorPersists | query.py:56-66 | once a clause raises, the whole search raises that error |
| BooleanSearch.ClauseStep | query.py:56-66 | a successful search had a successful prefix, a non-empty group and a known operator, and the last clause combined the prefix result with the group's documents |
| BooleanSearch.AndOrStep | server.py:66-72 | an `AND` clause never adds documents and an `OR` clause never removes any |
| BooleanSearch.NotStep | ground_truth.py:63-64 | after a `NOT` clause, no document filed under any of its terms remains |
| BooleanSearch.WellFormedEvaluates | query.py:56-66 | clauses with known operators and non-empty groups never raise |
| BooleanSearch.ParsedQueryEvaluates | performance.py:48-69 | the boolean search of any parsed query succeeds |
| BooleanSearch.EvaluateWithinRange | query.py:55-68 | over an index whose postings name only corpus documents, the result is a set of corpus ids, and no clause at all selects every document |
| BooleanSearch.RepeatedGroupLaws | query.py:59-64 | repeating a group with `AND` or `OR` changes nothing, and `g NOT g` selects nothing |
| BooleanSearch.PoolAndSpaExample | query.py:59-60 | `pool AND spa` over postings {0,1} and {1,2} selects {1} |
| Scoring.ZeroFrequencyScoresZero | query.py:79-83 | a term absent from the document has frequency 0 and scores 0 under either model |
| Scoring.TfNormBounds | query.py:100 | BM25's saturated term frequency is 0 at frequency 0 and always in [0, k1 + 1) |
| Scoring.TfNormIncreasing | server.py:109 | BM25's saturated term frequency grows strictly with the term frequency |
| Scoring.Bm25IdfPositive | query.py:99 | with a logarithm positive above 1, BM25's smoothed idf is positive whenever df <= N |
| Scoring.Bm25MonotoneInFrequency | performance.py:100-102 | a BM25 score grows strictly with term frequency and stays below idf * (k1 + 1) |
| Ranker.RepeatedIsProduct | query.py:113 | adding a score once per occurrence of the id equals count times score |
| Ranker.RepeatedDistributes | query.py:110-115 | per-occurrence accumulation distributes over summing terms |
| Ranker.DedupMembers | query.py:108 | the dictionary's keys are exactly the listed ids, each once |
| Ranker.Ranking | query.py:104-119 | no terms or no ids give an empty ranking; otherwise it fails iff the model is unsupported, with `ValueError` for an unknown name and division by zero for BM25 over an empty text |
| Ranker.ScoreOf | query.py:112-117 | the per-pair dispatch succeeds iff the model is supported, and then yields that model's score |
| Ranker.RankDocuments | query.py:104-119 | the method's result equals the ranking specification |
| Ranker.AddTermScores | query.py:111-117 | one pass over the ids adds the term's score to every id, or fails exactly when the model is unsupported |
| Ranker.InsertPermutes | query.py:119 | inserting into the sorted prefix adds exactly that entry |
| Ranker.InsertSorted | query.py:119 | insertion keeps the list in non-increasing score order |
| Ranker.InsertStable | query.py:119 | the inserted entry goes after every earlier entry with the same score |
| Ranker.SortSorts | query.py:119 | the sorted list is in non-increasing score order |
| Ranker.SortPermutes | query.py:119 | the sorted list is a permutation of the dictionary's items |
| Ranker.SortIsStable | query.py:119 | for every score, entries with that score keep their original order |
| Ranker.SortKeepsIds | query.py:119 | sorting keeps the set of ids and keeps them repeat-free |
| Ranker.AccumulatedEntries | query.py:108-115 | the items are the distinct ids in first-seen order, each with its per-term scores summed once per occurrence |
| Ranker.RankWithContents | query.py:108-119 | under any per-term scorer, the ranking lists every distinct id once, best first, with its accumulated score |
| Ranker.RankingContents | server.py:112-127 | a successful ranking lists every distinct requested id once, best first, each scored with the chosen model summed over the terms once per occurrence |
| Ranker.RankingIsStable | performance.py:120 | ties appear in the order the ids were first listed |
| Ranker.ScoreSumOfModel | query.py:79-83 | a document containing none of the query terms sums to 0 |
| Ranker.RangeCountOnce | server.py:137 | `range(n)` lists each id below `n` exactly once |
| Ranker.DistinctRangeLength | server.py:137 | a repeat-free list covering exactly the ids below `n` has `n` entries |
| Ranker.RankWithOverRange | server.py:137-138 | over `range(n)`, the ranking has `n` entries, each id once, scored with the plain term sum |
| Ranker.RankingOverCorpus | performance.py:155-156 | ranking the whole corpus lists every document exactly once with the plain sum of its per-term scores |
| Ranker.TieBreakExample | query.py:119 | scores {0: 1.0, 1: 1.0, 2: 2.0} rank as 2, 0, 1 |
| IndexBuilder.BuildInvertedIndex | inverted_index.py:4-23 | the index built equals the index of the original corpus, and every record is left extended with its feature terms |
| IndexBuilder.CombineTerms | inverted_index.py:14-16 | the record's terms are its description followed by all feature phrases, written back into the record's own description list when it has one |
| IndexBuilder.FileDocument | inverted_index.py:19-20 | the document is appended once to the posting list of each distinct term, whatever order the set is read in |
| IndexBuilder.PostingsOfIndexOf | inverted_index.py:12-20 | a document is filed under a term iff the term occurs in its description or features |
| IndexBuilder.PostingsAscending | inverted_index.py:12 | every posting list is strictly ascending, so it has no duplicates |
| IndexBuilder.KeysHavePostings | inverted_index.py:10 | no term maps to an empty posting list |
| IndexBuilder.IndexKeysAndBounds | inverted_index.py:4-23 | the keys are exactly the terms occurring in some document, and every posting names a corpus document |
| IndexBuilder.ExtendedKeepsTerms | inverted_index.py:14-16 | the write-back keeps the name and features, leaves a record without a description or without features as it is, and keeps its set of terms |
| IndexBuilder.RebuildSameIndex | inverted_index.py:16 | rebuilding over the extended corpus gives the same index |
| GroundTruth.NamesOf | ground_truth.py:87 | naming the matches succeeds iff every id is in the corpus, and then holds one name per matching document in some order; otherwise it fails at an id past the end |
| GroundTruth.CreateGroundTruth | ground_truth.py:71-92 | one entry per query, in order, each with the query and the names of the documents its boolean search selects; it fails iff some query selects an id outside the corpus |
| GroundTruth.BoundedIndexIsNameable | ground_truth.py:84-87 | over an index whose postings name only corpus documents, no query can make the naming fail |
| GroundTruth.EmptyQueryJudgesAll | ground_truth.py:55 | a query with no clause judges every document relevant |
| Evaluation.MeanAveragePrecisionAtK | performance.py:122-138 | the loop's value is the average-precision specification: 0 for an empty ground truth, otherwise the precision at each hit in the top `k`, summed and divided by `min(len(ground_truth), k)` |
| Evaluation.HitsAtMostLength | performance.py:134-135 | the hit counter never exceeds the number of entries read |
| Evaluation.PrecisionSumAtMostHits | performance.py:136 | the accumulated score lies between 0 and the number of hits |
| Evaluation.DistinctHitsCount | performance.py:133-135 | over names without repeats, the hit count is the number of distinct relevant names retrieved |
| Evaluation.TakeFacts | performance.py:133 | `retrieved_docs[:k]` has `min(len, k)` entries and is a prefix |
| Evaluation.AveragePrecisionBounds | performance.py:122-138 | with no repeated name in the top `k`, MAP@K lies in [0, 1] |
| Evaluation.NoHitsNoPrecision | performance.py:134-136 | with no hit, the accumulated score is 0 |
| Evaluation.AveragePrecisionNoHits | performance.py:138 | with no hit in the top `k`, MAP@K is 0 |
| Evaluation.AveragePrecisionIgnoresTail | performance.py:133 | entries past position `k` do not affect MAP@K |
| Evaluation.AllHits | performance.py:134-136 | when every entry is relevant, each position adds exactly 1 |
| Evaluation.PerfectRankingScoresOne | performance.py:138 | a top `k` made only of relevant names, as long as `min(len(ground_truth), k)`, scores exactly 1 |
| Evaluation.SevenTwelfthsExample | performance.py:133-138 | ground truth {A, B} against X, A, B, Y scores (1/2 + 2/3) / 2 = 7/12 |
| Evaluation.RepeatedHitExample | performance.py:134-138 | ground truth [A] against A, A scores 2: a repeated relevant name counts twice |
| Evaluation.TfIdfRankingInCorpus | performance.py:155-157 | the TF-IDF ranking over the whole corpus never fails, and every ranked id names a corpus record, with none repeated |
| Evaluation.EvaluateMetrics | performance.py:141-177 | one result per ground-truth entry, in order, each being that entry's metrics |
| Evaluation.EvaluateEntry | performance.py:150-167 | one loop iteration computes exactly that entry's metrics |
| Evaluation.EntryMetricsFacts | performance.py:151-161 | each result keeps its query and retrieves at most 10 names. A query with no term retrieves none and scores 0; otherwise it retrieves `min(|corpus|, 10)` names. Each label is 1 iff the judgment lists the name, and every prediction is 1 |
| Evaluation.EntryMapBounded | performance.py:167 | when no two hotels share a name, each query's MAP@10 lies in [0, 1] |
| Server.Search | server.py:129-138 | the handler's response equals its specification: the boolean matches plus the TF-IDF and BM25 rankings, or BM25's error |
| Server.EmptyQueryMatchesAll | server.py:133-138 | a query with no term left matches every document and ranks nothing |
| Server.SearchFails | server.py:137-138 | the handler fails iff the query has a term and the corpus has documents but no text, and then with division by zero |
| Server.RankingsCoverCorpus | server.py:137-138 | with a term in the query, both rankings list every corpus document exactly once, best first, scored with the plain term sum |
| Server.MatchesWithinCorpus | server.py:135 | over the index built from the same corpus, every boolean match is a corpus document |
| Server.SingleTermOverBuiltIndex | server.py:135 | a one-term query over the built index selects exactly the documents containing the term |

## Left out

- The query normaliser (`preprocess_query`: lower-casing, NLTK tokenising, dropping non-alphabetic tokens and stop words, stemming) is a parameter. Its outputs are arbitrary, so every property holds for any normaliser; none assumes what a particular word normalises to.
- `log` is a parameter `ln` defined on all reals, so Python's `ValueError: math domain error` for a non-positive argument is not modelled. The source can never reach that error on these paths, whatever the index. BM25 takes the logarithm of `(N + 1) / (df + 0.5)`. TF-IDF takes `log(tf)` and `log(N / (1 + df))` only when `tf > 0`, and then the document exists, so `N >= 1`. The properties that need the logarithm's sign assume only that `ln(x) > 0` for `x > 1`.
- Floating-point rounding is not modelled; scores are exact reals.
- `calculate_tf_idf` returns the integer `0` for an absent term; the model returns `0.0`.
- Evaluation.EvaluateMetrics: precision, recall and F1 are computed by scikit-learn, which is not part of this model. The model records the `y_true` and `y_pred` lists those calls receive, plus MAP@10.
- `evaluate_metrics` iterates `ground_truth.items()`, but `create_ground_truth` writes a JSON list, so the loaded file has no `.items()`. The model iterates the list of (query, judgment) entries that `create_ground_truth` produces.
- File and JSON I/O, `save_inverted_index`, every `main()`, the `print` calls, the scrapers, `preprocessing.py` and the React front end are outside the core.
- Flask routing, CORS, the request/response JSON and `map_document` (server.py:140-159) are left out. The handler's response carries document ids and scores.
- Query-side functions index `processed_data[doc_id]["description"]` and `["features"]` directly and raise `KeyError` when either is missing. The model requires complete records there (`AllComplete`); the index builder, which uses `.get`, handles missing fields.
- IndexBuilder.BuildInvertedIndex: two records sharing one description list (aliasing between records) is not modelled. Each record's list is its own.
- A Python set is read in an arbitrary order. The model leaves the order open, so ground-truth names are stated "in some order" and filing order is irrelevant.
- Evaluation.MeanAveragePrecisionAtK and Evaluation.AveragePrecisionAtK require `k > 0` whenever the ground truth is non-empty; `k = 0` would divide by zero in the source, and every caller passes 10.
- Ranker.RankDocuments takes `doc_ids` whose ids name corpus records (`Scorable`); an out-of-range id raises `IndexError` in the source, and every caller passes `range(len(processed_data))`.
