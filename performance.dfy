/** The evaluation harness: mean average precision at a cutoff, and the
    per-query metrics loop that ranks the whole corpus with TF-IDF and
    compares the top names with each query's judgment. */
module Evaluation {
  import opened Common
  import opened Corpus
  import opened Scoring
  import opened QueryParser
  import opened Ranker
  import opened GroundTruth

  /** `s[:k]` */
  function Take<T>(s: seq<T>, k: nat): seq<T> {
    if k <= |s| then s[..k] else s
  }

  /** The hit counter after reading `retrieved`: the entries that occur in
      the ground truth, counted once per position. */
  function Hits(groundTruth: seq<string>, retrieved: seq<string>): nat {
    if retrieved == [] then 0
    else Hits(groundTruth, retrieved[..|retrieved| - 1]) + (if retrieved[|retrieved| - 1] in groundTruth then 1 else 0)
  }

  /** The score accumulator after reading `retrieved`: a hit at 1-based
      position `p` adds the hits so far divided by `p`. */
  function PrecisionSum(groundTruth: seq<string>, retrieved: seq<string>): real {
    if retrieved == [] then 0.0
    else
      var n := |retrieved| - 1;
      PrecisionSum(groundTruth, retrieved[..n])
        + (if retrieved[n] in groundTruth then Hits(groundTruth, retrieved) as real / (n + 1) as real else 0.0)
  }

  /** `mean_average_precision_at_k(ground_truth, retrieved_docs, k)`: 0 for
      an empty ground truth, otherwise the accumulated precision over the
      first `k` entries divided by `min(len(ground_truth), k)`; a cutoff of
      0 would divide by zero. */
  function AveragePrecisionAtK(groundTruth: seq<string>, retrieved: seq<string>, k: nat): real
    requires k > 0 || groundTruth == []
  {
    if groundTruth == [] then 0.0
    else PrecisionSum(groundTruth, Take(retrieved, k)) / Min(|groundTruth|, k) as real
  }

  /** `mean_average_precision_at_k`: one pass over the first `k` entries,
      updating the hit counter and the score. */
  method MeanAveragePrecisionAtK(groundTruth: seq<string>, retrievedDocs: seq<string>, k: nat) returns (result: real)
    requires k > 0 || groundTruth == []
    ensures result == AveragePrecisionAtK(groundTruth, retrievedDocs, k)
  {
    var relevantCount := 0;
    var score := 0.0;
    var top := Take(retrievedDocs, k);
    for i := 0 to |top|
      invariant relevantCount == Hits(groundTruth, top[..i])
      invariant score == PrecisionSum(groundTruth, top[..i])
    {
      assert top[..i + 1][..i] == top[..i];
      if top[i] in groundTruth {
        relevantCount := relevantCount + 1;
        score := score + relevantCount as real / (i + 1) as real;
      }
    }
    assert top[..|top|] == top;
    if groundTruth != [] {
      result := score / Min(|groundTruth|, k) as real;
    } else {
      result := 0.0;
    }
  }

  lemma {:induction false} HitsAtMostLength(groundTruth: seq<string>, retrieved: seq<string>)
    ensures Hits(groundTruth, retrieved) <= |retrieved|
  {
    if retrieved != [] {
      HitsAtMostLength(groundTruth, retrieved[..|retrieved| - 1]);
    }
  }

  lemma RatioAtMostOne(x: real, y: real)
    requires 0.0 <= x <= y && y > 0.0
    ensures 0.0 <= x / y <= 1.0
  {
  }

  /** Each hit adds at most 1, so the accumulated precision never exceeds
      the number of hits. */
  lemma {:induction false} PrecisionSumAtMostHits(groundTruth: seq<string>, retrieved: seq<string>)
    ensures 0.0 <= PrecisionSum(groundTruth, retrieved) <= Hits(groundTruth, retrieved) as real
  {
    if retrieved != [] {
      var n := |retrieved| - 1;
      PrecisionSumAtMostHits(groundTruth, retrieved[..n]);
      HitsAtMostLength(groundTruth, retrieved);
      RatioAtMostOne(Hits(groundTruth, retrieved) as real, (n + 1) as real);
    }
  }

  lemma ElementsSnoc<T>(s: seq<T>, x: T)
    ensures Elements(s + [x]) == Elements(s) + {x}
  {
  }

  lemma IntersectOneMore<T>(a: set<T>, b: set<T>, x: T)
    requires x !in a
    ensures |(a + {x}) * b| == |a * b| + (if x in b then 1 else 0)
  {
    if x in b {
      assert (a + {x}) * b == a * b + {x};
    } else {
      assert (a + {x}) * b == a * b;
    }
  }

  /** In a list without repeats, the hits are the distinct entries the
      ground truth lists. */
  lemma {:induction false} DistinctHitsCount(groundTruth: seq<string>, retrieved: seq<string>)
    requires Distinct(retrieved)
    ensures Hits(groundTruth, retrieved) == |Elements(retrieved) * Elements(groundTruth)|
  {
    if retrieved != [] {
      var n := |retrieved| - 1;
      var prefix, x := retrieved[..n], retrieved[n];
      assert retrieved == prefix + [x];
      DistinctAppendOne(prefix, x);
      DistinctHitsCount(groundTruth, prefix);
      ElementsSnoc(prefix, x);
      IntersectOneMore(Elements(prefix), Elements(groundTruth), x);
    }
  }

  lemma {:induction false} ElementsAtMostLength<T>(s: seq<T>)
    ensures |Elements(s)| <= |s|
  {
    if s != [] {
      var n := |s| - 1;
      ElementsAtMostLength(s[..n]);
      assert Elements(s) == Elements(s[..n]) + {s[n]};
    }
  }

  lemma {:induction false} SubsetSize<T>(a: set<T>, b: set<T>)
    requires a <= b
    ensures |a| <= |b|
  {
    if a != {} {
      var x :| x in a;
      SubsetSize(a - {x}, b - {x});
    }
  }

  lemma TakeFacts<T>(s: seq<T>, k: nat)
    ensures |Take(s, k)| == Min(|s|, k)
    ensures forall i :: 0 <= i < |Take(s, k)| ==> Take(s, k)[i] == s[i]
  {
  }

  /** With no repeated entry among the first `k`, MAP@K lies in [0, 1]. */
  lemma AveragePrecisionBounds(groundTruth: seq<string>, retrieved: seq<string>, k: nat)
    requires k > 0 || groundTruth == []
    requires Distinct(Take(retrieved, k))
    ensures 0.0 <= AveragePrecisionAtK(groundTruth, retrieved, k) <= 1.0
  {
    if groundTruth != [] {
      var top := Take(retrieved, k);
      PrecisionSumAtMostHits(groundTruth, top);
      HitsAtMostLength(groundTruth, top);
      TakeFacts(retrieved, k);
      DistinctHitsCount(groundTruth, top);
      ElementsAtMostLength(groundTruth);
      SubsetSize(Elements(top) * Elements(groundTruth), Elements(groundTruth));
      RatioAtMostOne(PrecisionSum(groundTruth, top), Min(|groundTruth|, k) as real);
    }
  }

  /** With no hit among the first `k` entries the accumulator never moves. */
  lemma {:induction false} NoHitsNoPrecision(groundTruth: seq<string>, retrieved: seq<string>)
    requires forall i :: 0 <= i < |retrieved| ==> retrieved[i] !in groundTruth
    ensures PrecisionSum(groundTruth, retrieved) == 0.0
  {
    if retrieved != [] {
      NoHitsNoPrecision(groundTruth, retrieved[..|retrieved| - 1]);
    }
  }

  /** MAP@K is 0 when none of the first `k` retrieved entries is relevant,
      and in particular when the ground truth is empty. */
  lemma AveragePrecisionNoHits(groundTruth: seq<string>, retrieved: seq<string>, k: nat)
    requires k > 0 || groundTruth == []
    requires forall i :: 0 <= i < |retrieved| && i < k ==> retrieved[i] !in groundTruth
    ensures AveragePrecisionAtK(groundTruth, retrieved, k) == 0.0
  {
    TakeFacts(retrieved, k);
    NoHitsNoPrecision(groundTruth, Take(retrieved, k));
  }

  /** Entries past the cutoff are never looked at. */
  lemma AveragePrecisionIgnoresTail(groundTruth: seq<string>, retrieved: seq<string>, tail: seq<string>, k: nat)
    requires k > 0 || groundTruth == []
    requires k <= |retrieved|
    ensures AveragePrecisionAtK(groundTruth, retrieved + tail, k) == AveragePrecisionAtK(groundTruth, retrieved, k)
  {
    assert (retrieved + tail)[..k] == retrieved[..k];
  }

  /** When every entry is a hit, every hit adds exactly 1. */
  lemma {:induction false} AllHits(groundTruth: seq<string>, retrieved: seq<string>)
    requires forall i :: 0 <= i < |retrieved| ==> retrieved[i] in groundTruth
    ensures Hits(groundTruth, retrieved) == |retrieved|
    ensures PrecisionSum(groundTruth, retrieved) == |retrieved| as real
  {
    if retrieved != [] {
      AllHits(groundTruth, retrieved[..|retrieved| - 1]);
    }
  }

  /** A perfect ranking scores 1: every one of the first `k` entries is
      relevant and they are as many as `min(len(ground_truth), k)`. */
  lemma PerfectRankingScoresOne(groundTruth: seq<string>, retrieved: seq<string>, k: nat)
    requires groundTruth != [] && k > 0
    requires forall i :: 0 <= i < |retrieved| && i < k ==> retrieved[i] in groundTruth
    requires |Take(retrieved, k)| == Min(|groundTruth|, k)
    ensures AveragePrecisionAtK(groundTruth, retrieved, k) == 1.0
  {
    TakeFacts(retrieved, k);
    AllHits(groundTruth, Take(retrieved, k));
  }

  /** Ground truth [A, B] and retrieved [X, A, B, Y] at cutoff 10: hits at
      positions 2 and 3 give (1/2 + 2/3) / 2 = 7/12. */
  lemma SevenTwelfthsExample()
    ensures AveragePrecisionAtK(["Hotel A", "Hotel B"], ["Hotel X", "Hotel A", "Hotel B", "Hotel Y"], 10) == 7.0 / 12.0
  {
    var gt := ["Hotel A", "Hotel B"];
    var r := ["Hotel X", "Hotel A", "Hotel B", "Hotel Y"];
    assert r[..3] == ["Hotel X", "Hotel A", "Hotel B"];
    assert r[..3][..2] == ["Hotel X", "Hotel A"];
    assert r[..3][..2][..1] == ["Hotel X"];
    assert ["Hotel X"][..0] == [];
    assert "Hotel X" !in gt && "Hotel Y" !in gt;
    assert Hits(gt, ["Hotel X"]) == 0;
    assert Hits(gt, ["Hotel X", "Hotel A"]) == 1;
    assert Hits(gt, ["Hotel X", "Hotel A", "Hotel B"]) == 2;
    assert PrecisionSum(gt, ["Hotel X", "Hotel A"]) == 1.0 / 2.0;
    assert PrecisionSum(gt, ["Hotel X", "Hotel A", "Hotel B"]) == 1.0 / 2.0 + 2.0 / 3.0;
  }

  /** A repeated relevant entry is counted at every position it occupies,
      so MAP@K can exceed 1: ground truth [A] and retrieved [A, A] give 2. */
  lemma RepeatedHitExample()
    ensures AveragePrecisionAtK(["Hotel A"], ["Hotel A", "Hotel A"], 10) == 2.0
  {
    var gt := ["Hotel A"];
    assert ["Hotel A", "Hotel A"][..1] == ["Hotel A"];
    assert ["Hotel A"][..0] == [];
    assert Hits(gt, ["Hotel A"]) == 1;
    assert Hits(gt, ["Hotel A", "Hotel A"]) == 2;
  }

  /** The cutoff `evaluate_metrics` ranks to. */
  const EvaluationCutoff: nat := 10

  /** One query's evaluation: the names retrieved at the cutoff, the
      relevance label of each and the all-ones prediction the library
      metrics compare them with, and MAP at the cutoff. */
  datatype Metrics = Metrics(query: string, retrievedDocs: seq<string>, yTrue: seq<int>, yPred: seq<int>, mapAtK: real)

  /** `[processed_data[doc_id]["name"] for doc_id, _ in ranked_results]` */
  function RankedNames(corpus: seq<Hotel>, ranked: seq<Scored>): seq<string>
    requires forall k :: 0 <= k < |ranked| ==> ranked[k].id < |corpus|
  {
    seq(|ranked|, k requires 0 <= k < |ranked| => corpus[ranked[k].id].name)
  }

  /** `[1 if doc in relevant_docs else 0 for doc in retrieved_docs]` */
  function Labels(relevant: seq<string>, retrieved: seq<string>): seq<int> {
    seq(|retrieved|, i requires 0 <= i < |retrieved| => if retrieved[i] in relevant then 1 else 0)
  }

  /** Every id TF-IDF ranks over `range(len(processed_data))` names a
      document of the corpus, and none is ranked twice. */
  lemma TfIdfRankingInCorpus(terms: seq<string>, index: InvertedIndex, corpus: seq<Hotel>, ln: real -> real)
    requires AllComplete(corpus)
    ensures Ranking(terms, index, corpus, Range(|corpus|), TfIdfName, ln).Ok?
    ensures var ranked := Ranking(terms, index, corpus, Range(|corpus|), TfIdfName, ln).value;
            (forall k :: 0 <= k < |ranked| ==> ranked[k].id < |corpus|) && Distinct(Ids(ranked))
  {
    if terms != [] && |corpus| > 0 {
      RankingOverCorpus(terms, index, corpus, TfIdfName, ln);
      var ranked := Ranking(terms, index, corpus, Range(|corpus|), TfIdfName, ln).value;
      forall k | 0 <= k < |ranked| ensures ranked[k].id < |corpus| {
        assert Ids(ranked)[k] in Ids(ranked);
      }
    }
  }

  /** What `evaluate_metrics` records for one ground-truth entry: the query's
      terms, operators discarded, ranked with TF-IDF over the whole corpus;
      the names of the first `EvaluationCutoff` documents; their labels
      against the entry's judgment; and MAP at the cutoff. */
  function EntryMetrics(entry: GroundTruthEntry, corpus: seq<Hotel>, index: InvertedIndex,
                        normalize: string -> seq<string>, ln: real -> real): Metrics
    requires AllComplete(corpus)
  {
    var terms := ProcessedTerms(Parse(entry.query, normalize));
    TfIdfRankingInCorpus(terms, index, corpus, ln);
    var ranked := Ranking(terms, index, corpus, Range(|corpus|), TfIdfName, ln).value;
    var retrieved := Take(RankedNames(corpus, ranked), EvaluationCutoff);
    Metrics(entry.query, retrieved, Labels(entry.relevantDocuments, retrieved), seq(|retrieved|, _ => 1),
            AveragePrecisionAtK(entry.relevantDocuments, retrieved, EvaluationCutoff))
  }

  /** The first `i` entries have been evaluated, in order. */
  ghost predicate Evaluated(metricsResults: seq<Metrics>, groundTruth: seq<GroundTruthEntry>, i: nat, corpus: seq<Hotel>,
                            index: InvertedIndex, normalize: string -> seq<string>, ln: real -> real)
    requires AllComplete(corpus) && i <= |groundTruth|
  {
    && |metricsResults| == i
    && forall j :: 0 <= j < i ==> metricsResults[j] == EntryMetrics(groundTruth[j], corpus, index, normalize, ln)
  }

  lemma EvaluatedStep(metricsResults: seq<Metrics>, groundTruth: seq<GroundTruthEntry>, i: nat, corpus: seq<Hotel>,
                      index: InvertedIndex, normalize: string -> seq<string>, ln: real -> real, m: Metrics)
    requires AllComplete(corpus) && i < |groundTruth|
    requires Evaluated(metricsResults, groundTruth, i, corpus, index, normalize, ln)
    requires m == EntryMetrics(groundTruth[i], corpus, index, normalize, ln)
    ensures Evaluated(metricsResults + [m], groundTruth, i + 1, corpus, index, normalize, ln)
  {
  }

  /** `evaluate_metrics`, on a ground truth already loaded: one result per
      entry, in order. */
  method EvaluateMetrics(groundTruth: seq<GroundTruthEntry>, corpus: seq<Hotel>, index: InvertedIndex,
                         normalize: string -> seq<string>, ln: real -> real)
    returns (metricsResults: seq<Metrics>)
    requires AllComplete(corpus)
    ensures |metricsResults| == |groundTruth|
    ensures forall i :: 0 <= i < |groundTruth| ==> metricsResults[i] == EntryMetrics(groundTruth[i], corpus, index, normalize, ln)
  {
    metricsResults := [];
    var k := EvaluationCutoff;
    for i := 0 to |groundTruth|
      invariant Evaluated(metricsResults, groundTruth, i, corpus, index, normalize, ln)
    {
      var entry := groundTruth[i];
      var metrics := EvaluateEntry(entry.query, entry.relevantDocuments, corpus, index, normalize, ln, k);
      EvaluatedStep(metricsResults, groundTruth, i, corpus, index, normalize, ln, metrics);
      metricsResults := metricsResults + [metrics];
    }
  }

  /** The body of `evaluate_metrics`' loop for one entry. */
  method EvaluateEntry(query: string, relevantDocs: seq<string>, corpus: seq<Hotel>, index: InvertedIndex,
                       normalize: string -> seq<string>, ln: real -> real, k: nat)
    returns (metrics: Metrics)
    requires AllComplete(corpus) && k == EvaluationCutoff
    ensures metrics == EntryMetrics(GroundTruthEntry(query, relevantDocs), corpus, index, normalize, ln)
  {
    var parsedQuery := ParseQuery(query, normalize);
    var processedTerms := ProcessedTerms(parsedQuery);
    var rankedResults := RankDocuments(processedTerms, index, corpus, Range(|corpus|), TfIdfName, ln);
    TfIdfRankingInCorpus(processedTerms, index, corpus, ln);
    var retrievedDocs := Take(RankedNames(corpus, rankedResults.value), k);
    var yTrue := Labels(relevantDocs, retrievedDocs);
    var yPred := seq(|retrievedDocs|, _ => 1);
    var mapScore := MeanAveragePrecisionAtK(relevantDocs, retrievedDocs, k);
    metrics := Metrics(query, retrievedDocs, yTrue, yPred, mapScore);
  }

  /** Each recorded result keeps its query, retrieves at most
      `EvaluationCutoff` names (exactly that many, or the whole corpus if
      smaller, once the query has a term), labels each name 1 exactly when
      the judgment lists it, and predicts every name relevant. */
  lemma EntryMetricsFacts(entry: GroundTruthEntry, corpus: seq<Hotel>, index: InvertedIndex,
                          normalize: string -> seq<string>, ln: real -> real)
    requires AllComplete(corpus)
    ensures var m := EntryMetrics(entry, corpus, index, normalize, ln);
            && m.query == entry.query
            && |m.retrievedDocs| <= EvaluationCutoff
            && (Parse(entry.query, normalize) == [] ==> m.retrievedDocs == [] && m.mapAtK == 0.0)
            && (Parse(entry.query, normalize) != [] ==> |m.retrievedDocs| == Min(|corpus|, EvaluationCutoff))
            && |m.yTrue| == |m.yPred| == |m.retrievedDocs|
            && (forall i :: 0 <= i < |m.retrievedDocs| ==> (m.yTrue[i] == 1 <==> m.retrievedDocs[i] in entry.relevantDocuments))
            && (forall i :: 0 <= i < |m.retrievedDocs| ==> m.yTrue[i] in {0, 1} && m.yPred[i] == 1)
  {
    var clauses := Parse(entry.query, normalize);
    var terms := ProcessedTerms(clauses);
    ParsedClausesWellFormed(DefaultOperator, Tokens.Split(entry.query), normalize);
    ProcessedTermsFacts(clauses);
    if terms != [] && |corpus| > 0 {
      RankingOverCorpus(terms, index, corpus, TfIdfName, ln);
    }
    var m := EntryMetrics(entry, corpus, index, normalize, ln);
    if clauses == [] {
      AveragePrecisionNoHits(entry.relevantDocuments, m.retrievedDocs, EvaluationCutoff);
    }
  }

  /** When no two documents share a name, each query's MAP@10 lies in
      [0, 1]. */
  lemma EntryMapBounded(entry: GroundTruthEntry, corpus: seq<Hotel>, index: InvertedIndex,
                        normalize: string -> seq<string>, ln: real -> real)
    requires AllComplete(corpus)
    requires forall i, j :: 0 <= i < j < |corpus| ==> corpus[i].name != corpus[j].name
    ensures 0.0 <= EntryMetrics(entry, corpus, index, normalize, ln).mapAtK <= 1.0
  {
    var terms := ProcessedTerms(Parse(entry.query, normalize));
    TfIdfRankingInCorpus(terms, index, corpus, ln);
    var ranked := Ranking(terms, index, corpus, Range(|corpus|), TfIdfName, ln).value;
    var names := RankedNames(corpus, ranked);
    forall i, j | 0 <= i < j < |names| ensures names[i] != names[j] {
      assert Ids(ranked)[i] != Ids(ranked)[j];
    }
    var retrieved := Take(names, EvaluationCutoff);
    TakeFacts(names, EvaluationCutoff);
    assert Distinct(retrieved);
    AveragePrecisionBounds(entry.relevantDocuments, retrieved, EvaluationCutoff);
  }
}
