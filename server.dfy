/** The search service's handler: a query is parsed once, evaluated as a
    boolean query, and its terms, operators discarded, are ranked with both
    TF-IDF and BM25 over every document of the corpus, independently of
    the boolean result. Turning ids into display records is left out, so
    the response carries ids. */
module Server {
  import opened Common
  import opened Corpus
  import opened Scoring
  import opened QueryParser
  import opened BooleanSearch
  import opened Ranker
  import opened IndexBuilder

  /** The three parts of the response: the boolean matches and the two
      rankings. */
  datatype SearchResponse = SearchResponse(matchingDocs: set<nat>, rankedTfIdf: seq<Scored>, rankedBm25: seq<Scored>)

  /** What the handler answers for `query`: TF-IDF always ranks, BM25 raises
      when the corpus has no text at all. */
  function SearchOutcome(query: string, normalize: string -> seq<string>, index: InvertedIndex, corpus: seq<Hotel>,
                         ln: real -> real): Result<SearchResponse, RankError>
    requires AllComplete(corpus)
  {
    var terms := ProcessedTerms(Parse(query, normalize));
    var docIds := Range(|corpus|);
    var tfIdf := Ranking(terms, index, corpus, docIds, TfIdfName, ln);
    var bm25 := Ranking(terms, index, corpus, docIds, Bm25Name, ln);
    if bm25.Err? then Err(bm25.error)
    else Ok(SearchResponse(MatchingDocs(query, normalize, index, |corpus|), tfIdf.value, bm25.value))
  }

  /** `search()` on the request's query. */
  method Search(query: string, normalize: string -> seq<string>, index: InvertedIndex, corpus: seq<Hotel>, ln: real -> real)
    returns (response: Result<SearchResponse, RankError>)
    requires AllComplete(corpus)
    ensures response == SearchOutcome(query, normalize, index, corpus, ln)
  {
    var totalDocs := |corpus|;
    var parsedQuery := ParseQuery(query, normalize);
    var processedTerms := ProcessedTerms(parsedQuery);
    var matchingDocs := BooleanSearch.BooleanSearch(parsedQuery, index, totalDocs);
    ParsedQueryEvaluates(query, normalize, index, totalDocs);
    var rankedTfIdf := RankDocuments(processedTerms, index, corpus, Range(totalDocs), TfIdfName, ln);
    var rankedBm25 := RankDocuments(processedTerms, index, corpus, Range(totalDocs), Bm25Name, ln);
    if rankedBm25.Err? {
      return Err(rankedBm25.error);
    }
    response := Ok(SearchResponse(matchingDocs.value, rankedTfIdf.value, rankedBm25.value));
  }

  /** A query with no term left after parsing matches every document and
      ranks nothing. */
  lemma EmptyQueryMatchesAll(query: string, normalize: string -> seq<string>, index: InvertedIndex, corpus: seq<Hotel>,
                             ln: real -> real)
    requires AllComplete(corpus)
    requires Parse(query, normalize) == []
    ensures SearchOutcome(query, normalize, index, corpus, ln) == Ok(SearchResponse(RangeSet(|corpus|), [], []))
  {
  }

  /** The handler fails only through BM25, and exactly when the query has a
      term and the corpus has documents but no text. */
  lemma SearchFails(query: string, normalize: string -> seq<string>, index: InvertedIndex, corpus: seq<Hotel>,
                    ln: real -> real)
    requires AllComplete(corpus)
    ensures SearchOutcome(query, normalize, index, corpus, ln).Err? <==>
              Parse(query, normalize) != [] && |corpus| > 0 && TotalLength(corpus) == 0
    ensures SearchOutcome(query, normalize, index, corpus, ln).Err? ==>
              SearchOutcome(query, normalize, index, corpus, ln).error == ZeroDivision
  {
    var clauses := Parse(query, normalize);
    ParsedClausesWellFormed(DefaultOperator, Tokens.Split(query), normalize);
    ProcessedTermsFacts(clauses);
  }

  /** A ranked list of the service: every document of the corpus exactly
      once, in non-increasing score order, each scored with the plain sum
      of its per-term scores. */
  ghost predicate RanksCorpus(ranked: seq<Scored>, terms: seq<string>, corpus: seq<Hotel>, score: TermScorer) {
    && |ranked| == |corpus|
    && Distinct(Ids(ranked))
    && (forall d: nat :: d in Ids(ranked) <==> d < |corpus|)
    && NonIncreasing(ranked)
    && (forall e :: e in ranked ==> e.score == ScoreSum(score, terms, e.id))
  }

  /** With a term in the query, both rankings cover the whole corpus: each
      lists every document exactly once, best first. */
  lemma RankingsCoverCorpus(query: string, normalize: string -> seq<string>, index: InvertedIndex, corpus: seq<Hotel>,
                            ln: real -> real)
    requires AllComplete(corpus)
    requires Parse(query, normalize) != []
    requires SearchOutcome(query, normalize, index, corpus, ln).Ok?
    ensures var r := SearchOutcome(query, normalize, index, corpus, ln).value;
            var terms := ProcessedTerms(Parse(query, normalize));
            && RanksCorpus(r.rankedTfIdf, terms, corpus, Scorer(TfIdfName, index, corpus, ln))
            && RanksCorpus(r.rankedBm25, terms, corpus, Scorer(Bm25Name, index, corpus, ln))
  {
    var clauses := Parse(query, normalize);
    var terms := ProcessedTerms(clauses);
    ParsedClausesWellFormed(DefaultOperator, Tokens.Split(query), normalize);
    ProcessedTermsFacts(clauses);
    SearchFails(query, normalize, index, corpus, ln);
    if |corpus| > 0 {
      RankingOverCorpus(terms, index, corpus, TfIdfName, ln);
      RankingOverCorpus(terms, index, corpus, Bm25Name, ln);
      RankingContents(terms, index, corpus, Range(|corpus|), TfIdfName, ln);
      RankingContents(terms, index, corpus, Range(|corpus|), Bm25Name, ln);
    }
  }

  /** Over the index the builder makes from the same corpus, the boolean
      matches are documents of the corpus. */
  lemma MatchesWithinCorpus(query: string, normalize: string -> seq<string>, corpus: seq<Hotel>, ln: real -> real)
    requires AllComplete(corpus)
    requires SearchOutcome(query, normalize, IndexOf(corpus), corpus, ln).Ok?
    ensures SearchOutcome(query, normalize, IndexOf(corpus), corpus, ln).value.matchingDocs <= RangeSet(|corpus|)
  {
    IndexKeysAndBounds(corpus, "");
    ParsedQueryEvaluates(query, normalize, IndexOf(corpus), |corpus|);
    EvaluateWithinRange(Parse(query, normalize), IndexOf(corpus), |corpus|);
  }

  /** Building the index and then searching it for one term selects exactly
      the documents in which the term occurs. */
  lemma SingleTermOverBuiltIndex(corpus: seq<Hotel>, t: string)
    ensures Evaluate([Clause("AND", [t])], IndexOf(corpus), |corpus|)
         == Ok(set d: nat | d < |corpus| && t in IndexedTerms(corpus[d]))
  {
    var index := IndexOf(corpus);
    var selected := set d: nat | d < |corpus| && t in IndexedTerms(corpus[d]);
    var docs := TermDocs(index, [t]);
    PostingsOfIndexOf(corpus, t);
    assert [Clause("AND", [t])][..0] == [];
    assert Evaluate([Clause("AND", [t])], index, |corpus|) == Ok(RangeSet(|corpus|) * docs);
    forall d: nat ensures d in RangeSet(|corpus|) * docs <==> d in selected {
      assert d in docs <==> d in Postings(index, t);
    }
    assert RangeSet(|corpus|) * docs == selected;
  }
}
