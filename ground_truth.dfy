/** The ground-truth builder: every canned query is parsed and evaluated as
    a boolean query, and the names of the documents it selects become that
    query's relevance judgment.

    The selected ids form a set, which is read in no fixed order, so a
    judgment lists the names of its documents in some order, one name per
    document. An id past the end of the corpus (a posting the corpus does
    not back) makes the name lookup fail. */
module GroundTruth {
  import opened Common
  import opened Corpus
  import opened QueryParser
  import opened BooleanSearch

  /** One judged query: the query text and the names of its relevant
      documents. */
  datatype GroundTruthEntry = GroundTruthEntry(query: string, relevantDocuments: seq<string>)

  /** `processed_data[doc_id]` raises for an id past the end of the corpus. */
  datatype LookupError = NoSuchDocument(docId: nat)

  /** Every id of `docs` names a document of the corpus. */
  predicate Nameable(corpus: seq<Hotel>, docs: set<nat>) {
    forall d :: d in docs ==> d < |corpus|
  }

  /** Every id of `ids` names a document of the corpus. */
  ghost predicate InCorpus(corpus: seq<Hotel>, ids: seq<nat>) {
    forall k :: 0 <= k < |ids| ==> ids[k] < |corpus|
  }

  /** The names of the documents `ids`, in that order. */
  function NamesIn(corpus: seq<Hotel>, ids: seq<nat>): seq<string>
    requires InCorpus(corpus, ids)
  {
    seq(|ids|, k requires 0 <= k < |ids| => corpus[ids[k]].name)
  }

  /** `order` lists every id of `docs` exactly once. */
  ghost predicate Enumerates(order: seq<nat>, docs: set<nat>) {
    Distinct(order) && Elements(order) == docs
  }

  /** `names` holds the name of every document of `docs`, one per document,
      in some order. */
  ghost predicate NamesOfSet(corpus: seq<Hotel>, docs: set<nat>, names: seq<string>) {
    exists order :: Enumerates(order, docs) && InCorpus(corpus, order) && names == NamesIn(corpus, order)
  }

  /** Partway through the names of `docs`: the ids `order` have been named,
      the ids `remaining` have not. */
  ghost predicate Listing(corpus: seq<Hotel>, docs: set<nat>, remaining: set<nat>, order: seq<nat>, names: seq<string>) {
    && Distinct(order)
    && InCorpus(corpus, order)
    && Elements(order) !! remaining
    && Elements(order) + remaining == docs
    && names == NamesIn(corpus, order)
  }

  lemma ListingStart(corpus: seq<Hotel>, docs: set<nat>)
    ensures Listing(corpus, docs, docs, [], [])
  {
    assert Elements<nat>([]) == {};
  }

  lemma ListingStep(corpus: seq<Hotel>, docs: set<nat>, remaining: set<nat>, order: seq<nat>, names: seq<string>, d: nat)
    requires Listing(corpus, docs, remaining, order, names)
    requires d in remaining && d < |corpus|
    ensures Listing(corpus, docs, remaining - {d}, order + [d], names + [corpus[d].name])
  {
    DistinctAppendOne(order, d);
    assert Elements(order + [d]) == Elements(order) + {d};
  }

  lemma ListingDone(corpus: seq<Hotel>, docs: set<nat>, order: seq<nat>, names: seq<string>)
    requires Listing(corpus, docs, {}, order, names)
    ensures Enumerates(order, docs) && NamesOfSet(corpus, docs, names)
    ensures Nameable(corpus, docs) && |names| == |docs|
  {
    DistinctCardinality(order);
    forall d | d in docs ensures d < |corpus| {
      var k :| 0 <= k < |order| && order[k] == d;
    }
  }

  /** `[processed_data[doc_id]["name"] for doc_id in matching_docs]`: the
      set is read one id at a time, in no fixed order. */
  method NamesOf(corpus: seq<Hotel>, docs: set<nat>) returns (r: Result<seq<string>, LookupError>, ghost order: seq<nat>)
    ensures r.Ok? <==> Nameable(corpus, docs)
    ensures r.Err? ==> r.error.docId in docs && r.error.docId >= |corpus|
    ensures r.Ok? ==> |r.value| == |docs| && NamesOfSet(corpus, docs, r.value)
  {
    var names: seq<string> := [];
    var remaining := docs;
    order := [];
    ListingStart(corpus, docs);
    while remaining != {}
      invariant Listing(corpus, docs, remaining, order, names)
      decreases |remaining|
    {
      var docId :| docId in remaining;
      if docId >= |corpus| {
        return Err(NoSuchDocument(docId)), order;
      }
      ListingStep(corpus, docs, remaining, order, names, docId);
      names := names + [corpus[docId].name];
      order := order + [docId];
      remaining := remaining - {docId};
    }
    ListingDone(corpus, docs, order, names);
    r := Ok(names);
  }

  /** The judgment recorded for `query`: the query unchanged, and the name
      of each document its boolean search selects, one per document. */
  ghost predicate Judged(entry: GroundTruthEntry, query: string, corpus: seq<Hotel>, index: InvertedIndex,
                         normalize: string -> seq<string>)
  {
    var docs := MatchingDocs(query, normalize, index, |corpus|);
    && entry.query == query
    && |entry.relevantDocuments| == |docs|
    && NamesOfSet(corpus, docs, entry.relevantDocuments)
  }

  /** The first `i` queries have been judged, and none of them selects an
      id the corpus does not have. */
  ghost predicate Recorded(groundTruth: seq<GroundTruthEntry>, queries: seq<string>, i: nat, corpus: seq<Hotel>,
                           index: InvertedIndex, normalize: string -> seq<string>)
    requires i <= |queries|
  {
    && |groundTruth| == i
    && (forall j :: 0 <= j < i ==> Nameable(corpus, MatchingDocs(queries[j], normalize, index, |corpus|)))
    && (forall j :: 0 <= j < i ==> Judged(groundTruth[j], queries[j], corpus, index, normalize))
  }

  lemma RecordedStep(groundTruth: seq<GroundTruthEntry>, queries: seq<string>, i: nat, corpus: seq<Hotel>,
                     index: InvertedIndex, normalize: string -> seq<string>, names: seq<string>)
    requires i < |queries| && Recorded(groundTruth, queries, i, corpus, index, normalize)
    requires var docs := MatchingDocs(queries[i], normalize, index, |corpus|);
             Nameable(corpus, docs) && |names| == |docs| && NamesOfSet(corpus, docs, names)
    ensures Recorded(groundTruth + [GroundTruthEntry(queries[i], names)], queries, i + 1, corpus, index, normalize)
  {
    var next := groundTruth + [GroundTruthEntry(queries[i], names)];
    forall j | 0 <= j < i + 1 ensures Judged(next[j], queries[j], corpus, index, normalize) {
      if j < i {
        assert next[j] == groundTruth[j];
      }
    }
  }

  /** `create_ground_truth(processed_data, inverted_index, queries, ...)`,
      without writing the file: one entry per query, in order. It fails
      exactly when some query selects an id the corpus does not have. */
  method CreateGroundTruth(corpus: seq<Hotel>, index: InvertedIndex, queries: seq<string>, normalize: string -> seq<string>)
    returns (r: Result<seq<GroundTruthEntry>, LookupError>)
    ensures r.Ok? <==> forall i :: 0 <= i < |queries| ==> Nameable(corpus, MatchingDocs(queries[i], normalize, index, |corpus|))
    ensures r.Ok? ==> |r.value| == |queries|
    ensures r.Ok? ==> forall i :: 0 <= i < |queries| ==> Judged(r.value[i], queries[i], corpus, index, normalize)
  {
    var totalDocs := |corpus|;
    var groundTruth: seq<GroundTruthEntry> := [];
    for i := 0 to |queries|
      invariant Recorded(groundTruth, queries, i, corpus, index, normalize)
    {
      var query := queries[i];
      var parsedQuery := ParseQuery(query, normalize);
      var matchingDocs := BooleanSearch.BooleanSearch(parsedQuery, index, totalDocs);
      ParsedQueryEvaluates(query, normalize, index, totalDocs);
      assert matchingDocs.value == MatchingDocs(query, normalize, index, totalDocs);
      var names;
      ghost var order;
      names, order := NamesOf(corpus, matchingDocs.value);
      if names.Err? {
        return Err(names.error);
      }
      RecordedStep(groundTruth, queries, i, corpus, index, normalize, names.value);
      groundTruth := groundTruth + [GroundTruthEntry(query, names.value)];
    }
    return Ok(groundTruth);
  }

  /** Over an index whose postings all name documents of the corpus, no
      query can make the builder fail. */
  lemma BoundedIndexIsNameable(corpus: seq<Hotel>, index: InvertedIndex, query: string, normalize: string -> seq<string>)
    requires IndexBounded(index, |corpus|)
    ensures Nameable(corpus, MatchingDocs(query, normalize, index, |corpus|))
  {
    ParsedQueryEvaluates(query, normalize, index, |corpus|);
    EvaluateWithinRange(Parse(query, normalize), index, |corpus|);
  }

  /** A query that parses to no clause marks every document as relevant:
      its judgment names all of them. */
  lemma EmptyQueryJudgesAll(corpus: seq<Hotel>, index: InvertedIndex, query: string, normalize: string -> seq<string>)
    requires Parse(query, normalize) == []
    ensures MatchingDocs(query, normalize, index, |corpus|) == RangeSet(|corpus|)
    ensures Nameable(corpus, MatchingDocs(query, normalize, index, |corpus|))
    ensures |MatchingDocs(query, normalize, index, |corpus|)| == |corpus|
  {
    RangeSetSize(|corpus|);
  }
}
