/** The ranker: per-document scores are summed over the query terms into a
    dictionary whose keys keep their first-insertion order, and the entries
    are then sorted by descending score with a stable sort, so documents
    with equal scores keep that order.

    The accumulation and the sort do not depend on how one term scores one
    document, so they are stated over any per-term scorer; `Scorer` is the
    one `rank_documents` selects by name. */
module Ranker {
  import opened Common
  import opened Corpus
  import opened Scoring

  /** One ranked entry: a document id and its total score. */
  datatype Scored = Scored(id: nat, score: real)

  /** The two ways `rank_documents` raises: an unknown model name, and BM25's
      division by an average document length of zero. */
  datatype RankError = UnsupportedRanking(name: string) | ZeroDivision

  /** The score one term contributes to one document. */
  type TermScorer = (string, nat) -> real

  /** The scorer the model name selects, on the documents it can score. */
  function Scorer(name: string, index: InvertedIndex, corpus: seq<Hotel>, ln: real -> real): TermScorer {
    (term: string, docId: nat) =>
      if docId < |corpus| && AllComplete(corpus) && Supported(name, corpus)
      then TermScore(name, term, docId, index, corpus, ln)
      else 0.0
  }

  /** What `rank_documents` needs from its caller as soon as it has a term
      and a document to score: every id indexes the corpus and every record
      has both keys. */
  predicate Scorable(queryTerms: seq<string>, corpus: seq<Hotel>, docIds: seq<nat>) {
    queryTerms != [] && docIds != [] ==> (forall d :: d in docIds ==> d < |corpus|) && AllComplete(corpus)
  }

  /** The per-term scores of `docId`, summed over `terms` from left to right. */
  function ScoreSum(score: TermScorer, terms: seq<string>, docId: nat): real {
    if terms == [] then 0.0
    else ScoreSum(score, terms[..|terms| - 1], docId) + score(terms[|terms| - 1], docId)
  }

  /** `x` added `c` times over, as a `+=` once per occurrence does. */
  function Repeated(c: nat, x: real): real {
    if c == 0 then 0.0 else Repeated(c - 1, x) + x
  }

  lemma {:induction false} RepeatedIsProduct(c: nat, x: real)
    ensures Repeated(c, x) == c as real * x
  {
    if c > 0 {
      RepeatedIsProduct(c - 1, x);
      assert (c - 1) as real * x + x == c as real * x;
    }
  }

  lemma {:induction false} RepeatedDistributes(c: nat, x: real, y: real)
    ensures Repeated(c, x) + Repeated(c, y) == Repeated(c, x + y)
  {
    if c > 0 {
      RepeatedDistributes(c - 1, x, y);
    }
  }

  /** The ids of `ids` in order of first occurrence: the key order of a
      dictionary filled from `ids`. */
  function Dedup(ids: seq<nat>): seq<nat> {
    if ids == [] then []
    else
      var prior := Dedup(ids[..|ids| - 1]);
      var last := ids[|ids| - 1];
      if last in ids[..|ids| - 1] then prior else prior + [last]
  }

  /** Every id of `ids` is kept, nothing else, and none twice. */
  lemma {:induction false} DedupMembers(ids: seq<nat>)
    ensures forall d :: d in Dedup(ids) <==> d in ids
    ensures Distinct(Dedup(ids))
  {
    if ids != [] {
      var n := |ids| - 1;
      DedupMembers(ids[..n]);
      assert ids == ids[..n] + [ids[n]];
      DistinctAppendOne(Dedup(ids[..n]), ids[n]);
    }
  }

  lemma DedupSnoc(ids: seq<nat>, d: nat)
    ensures Dedup(ids + [d]) == if d in ids then Dedup(ids) else Dedup(ids) + [d]
  {
    assert (ids + [d])[..|ids|] == ids;
  }

  /** The score dictionary as a list: every distinct id of `docIds`, in
      first-occurrence order, with its per-term scores summed over the
      query terms once for every time it occurs in `docIds`. */
  function Accumulated(score: TermScorer, terms: seq<string>, docIds: seq<nat>): seq<Scored> {
    var order := Dedup(docIds);
    seq(|order|, k requires 0 <= k < |order| =>
      Scored(order[k], Repeated(Count(docIds, order[k]), ScoreSum(score, terms, order[k]))))
  }

  function Ids(s: seq<Scored>): (ids: seq<nat>)
    ensures |ids| == |s| && forall k :: 0 <= k < |s| ==> ids[k] == s[k].id
  {
    seq(|s|, k requires 0 <= k < |s| => s[k].id)
  }

  /** Sorted by score, highest first. */
  ghost predicate NonIncreasing(s: seq<Scored>) {
    forall i, j :: 0 <= i < j < |s| ==> s[i].score >= s[j].score
  }

  /** The entries of `s` with score `v`, in their order in `s`. */
  function WithScore(s: seq<Scored>, v: real): seq<Scored> {
    if s == [] then []
    else (if s[0].score == v then [s[0]] else []) + WithScore(s[1..], v)
  }

  /** Places `x` after every leading entry whose score is at least its own. */
  function Insert(x: Scored, s: seq<Scored>): seq<Scored> {
    if s == [] then [x]
    else if s[0].score >= x.score then [s[0]] + Insert(x, s[1..])
    else [x] + s
  }

  /** `sorted(entries, key=score, reverse=True)`: a stable sort by
      descending score, here as an insertion sort from left to right. */
  function SortByScore(s: seq<Scored>): seq<Scored> {
    if s == [] then [] else Insert(s[|s| - 1], SortByScore(s[..|s| - 1]))
  }

  /** The ranked list under one scorer: the score dictionary sorted. */
  function RankWith(score: TermScorer, terms: seq<string>, docIds: seq<nat>): seq<Scored> {
    SortByScore(Accumulated(score, terms, docIds))
  }

  /** `rank_documents(query_terms, inverted_index, processed_data, doc_ids, ranking_function)` */
  function Ranking(queryTerms: seq<string>, index: InvertedIndex, corpus: seq<Hotel>, docIds: seq<nat>,
                   name: string, ln: real -> real): (r: Result<seq<Scored>, RankError>)
    requires Scorable(queryTerms, corpus, docIds)
    ensures queryTerms == [] || docIds == [] ==> r == Ok([])
    ensures r.Err? <==> queryTerms != [] && docIds != [] && !Supported(name, corpus)
    ensures r.Err? ==> r.error == if name == TfIdfName || name == Bm25Name then ZeroDivision else UnsupportedRanking(name)
  {
    if queryTerms == [] || docIds == [] then Ok([])
    else if name != TfIdfName && name != Bm25Name then Err(UnsupportedRanking(name))
    else if name == Bm25Name && TotalLength(corpus) == 0 then Err(ZeroDivision)
    else Ok(RankWith(Scorer(name, index, corpus, ln), queryTerms, docIds))
  }

  /** The dictionary once the first `i` terms have been added for every id
      of `docIds`: each id's summed score, counted once per occurrence. */
  ghost predicate ScoredTerms(scores: map<nat, real>, score: TermScorer, terms: seq<string>, i: nat, docIds: seq<nat>)
    requires i <= |terms|
  {
    forall d :: d in scores ==> scores[d] == Repeated(Count(docIds, d), ScoreSum(score, terms[..i], d))
  }

  /** ... and term `i` besides for the ids of `docIds[..j]`. */
  ghost predicate ScoringTerm(scores: map<nat, real>, score: TermScorer, terms: seq<string>, i: nat, docIds: seq<nat>, j: nat)
    requires i < |terms| && j <= |docIds|
  {
    forall d :: d in scores ==>
      scores[d] == Repeated(Count(docIds, d), ScoreSum(score, terms[..i], d)) + Repeated(Count(docIds[..j], d), score(terms[i], d))
  }

  /** The dictionary as `rank_documents` builds it, one `+=` at a time: term
      `terms[i]` added for the ids of `docIds[..j]`, on top of every earlier
      term added for all of `docIds`. With `j == 0` it is the dictionary
      after the first `i` terms. */
  ghost function Partial(score: TermScorer, terms: seq<string>, i: nat, docIds: seq<nat>, j: nat): map<nat, real>
    requires i <= |terms| && j <= |docIds| && (i == |terms| ==> j == 0)
    decreases i, j
  {
    if j > 0 then
      var m := Partial(score, terms, i, docIds, j - 1);
      var d := docIds[j - 1];
      m[d := (if d in m then m[d] else 0.0) + score(terms[i], d)]
    else if i == 0 then map[]
    else Partial(score, terms, i - 1, docIds, |docIds|)
  }

  /** `scores[doc_id] += score`: one inner step of the accumulation. A key
      not yet present is new only during the first term, for an id not
      seen before in `docIds`. */
  lemma AddStep(scores: map<nat, real>, score: TermScorer, terms: seq<string>, i: nat, docIds: seq<nat>, j: nat)
    requires i < |terms| && j < |docIds|
    requires ScoringTerm(scores, score, terms, i, docIds, j)
    requires docIds[j] !in scores ==> i == 0 && docIds[j] !in docIds[..j]
    ensures var d0 := docIds[j];
            var current := if d0 in scores then scores[d0] else 0.0;
            ScoringTerm(scores[d0 := current + score(terms[i], d0)], score, terms, i, docIds, j + 1)
  {
    var d0 := docIds[j];
    var current := if d0 in scores then scores[d0] else 0.0;
    assert docIds[..j + 1] == docIds[..j] + [d0];
    forall d ensures Count(docIds[..j + 1], d) == Count(docIds[..j], d) + (if d0 == d then 1 else 0) {
      CountSnoc(docIds[..j], d0, d);
    }
    var k := Count(docIds[..j], d0);
    assert Repeated(k + 1, score(terms[i], d0)) == Repeated(k, score(terms[i], d0)) + score(terms[i], d0);
    if d0 !in scores {
      CountPositive(docIds[..j], d0);
      assert terms[..i] == [];
      RepeatedIsProduct(Count(docIds, d0), 0.0);
    }
  }

  /** Term `i` not yet added for any id. */
  lemma StartTerm(scores: map<nat, real>, score: TermScorer, terms: seq<string>, i: nat, docIds: seq<nat>)
    requires i < |terms|
    requires ScoredTerms(scores, score, terms, i, docIds)
    ensures ScoringTerm(scores, score, terms, i, docIds, 0)
  {
    assert docIds[..0] == [];
  }

  /** Term `i` added for every id: on to the next term. */
  lemma NextTerm(scores: map<nat, real>, score: TermScorer, terms: seq<string>, i: nat, docIds: seq<nat>)
    requires i < |terms|
    requires ScoringTerm(scores, score, terms, i, docIds, |docIds|)
    ensures ScoredTerms(scores, score, terms, i + 1, docIds)
  {
    assert docIds[..|docIds|] == docIds;
    assert terms[..i + 1][..i] == terms[..i];
    forall d | d in scores
      ensures scores[d] == Repeated(Count(docIds, d), ScoreSum(score, terms[..i + 1], d))
    {
      RepeatedDistributes(Count(docIds, d), ScoreSum(score, terms[..i], d), score(terms[i], d));
    }
  }

  /** `scores[doc_id] += score` on the dictionary `m` built so far. */
  lemma PartialSnoc(score: TermScorer, terms: seq<string>, i: nat, docIds: seq<nat>, j: nat, m: map<nat, real>, v: real)
    requires i < |terms| && j < |docIds|
    requires m == Partial(score, terms, i, docIds, j) && v == score(terms[i], docIds[j])
    ensures Partial(score, terms, i, docIds, j + 1) == m[docIds[j] := (if docIds[j] in m then m[docIds[j]] else 0.0) + v]
  {
  }

  /** The dictionary's keys: the ids met so far, in the first term's pass
      the ids of `docIds[..j]` and from then on every id of `docIds`. */
  lemma {:induction false} PartialKeys(score: TermScorer, terms: seq<string>, i: nat, docIds: seq<nat>, j: nat)
    requires i <= |terms| && j <= |docIds| && (i == |terms| ==> j == 0)
    ensures forall d :: d in Partial(score, terms, i, docIds, j) <==> d in (if i == 0 then docIds[..j] else docIds)
    decreases i, j
  {
    if j > 0 {
      PartialKeys(score, terms, i, docIds, j - 1);
      assert docIds[..j] == docIds[..j - 1] + [docIds[j - 1]];
    } else if i > 0 {
      PartialKeys(score, terms, i - 1, docIds, |docIds|);
      assert docIds[..|docIds|] == docIds;
    }
  }

  /** One `+=` of the inner loop, on the dictionary it builds. */
  lemma PartialAdd(score: TermScorer, terms: seq<string>, i: nat, docIds: seq<nat>, j: nat)
    requires i < |terms| && 0 < j <= |docIds|
    requires ScoringTerm(Partial(score, terms, i, docIds, j - 1), score, terms, i, docIds, j - 1)
    ensures ScoringTerm(Partial(score, terms, i, docIds, j), score, terms, i, docIds, j)
  {
    PartialKeys(score, terms, i, docIds, j - 1);
    var m, d0 := Partial(score, terms, i, docIds, j - 1), docIds[j - 1];
    AddStep(m, score, terms, i, docIds, j - 1);
  }

  /** The step from one term's pass to the next, on the dictionary. */
  lemma PartialNext(score: TermScorer, terms: seq<string>, i: nat, docIds: seq<nat>)
    requires 0 < i < |terms|
    requires ScoringTerm(Partial(score, terms, i - 1, docIds, |docIds|), score, terms, i - 1, docIds, |docIds|)
    ensures ScoringTerm(Partial(score, terms, i, docIds, 0), score, terms, i, docIds, 0)
  {
    var m := Partial(score, terms, i - 1, docIds, |docIds|);
    NextTerm(m, score, terms, i - 1, docIds);
    StartTerm(m, score, terms, i, docIds);
    assert Partial(score, terms, i, docIds, 0) == m;
  }

  /** A key not yet in the dictionary goes to the end of the key order. */
  lemma KeyOrderStep(score: TermScorer, terms: seq<string>, i: nat, docIds: seq<nat>, j: nat, order: seq<nat>)
    requires i < |terms| && j < |docIds|
    requires order == if i == 0 then Dedup(docIds[..j]) else Dedup(docIds)
    ensures var d := docIds[j];
            (if d in Partial(score, terms, i, docIds, j) then order else order + [d])
              == if i == 0 then Dedup(docIds[..j + 1]) else Dedup(docIds)
  {
    PartialKeys(score, terms, i, docIds, j);
    assert docIds[..j + 1] == docIds[..j] + [docIds[j]];
    DedupSnoc(docIds[..j], docIds[j]);
  }

  /** While term `i` is being added, each key holds the scores added to it
      so far. */
  lemma {:induction false} PartialScoring(score: TermScorer, terms: seq<string>, i: nat, docIds: seq<nat>, j: nat)
    requires i < |terms| && j <= |docIds|
    ensures ScoringTerm(Partial(score, terms, i, docIds, j), score, terms, i, docIds, j)
    decreases i, j
  {
    if j > 0 {
      PartialScoring(score, terms, i, docIds, j - 1);
      PartialAdd(score, terms, i, docIds, j);
    } else if i > 0 {
      PartialScoring(score, terms, i - 1, docIds, |docIds|);
      PartialNext(score, terms, i, docIds);
    }
  }

  /** Once every term has been added, the keys are the ids of `docIds` and
      each holds its summed score, counted once per occurrence. */
  lemma PartialScored(score: TermScorer, terms: seq<string>, docIds: seq<nat>)
    requires terms != []
    ensures var scores := Partial(score, terms, |terms|, docIds, 0);
            && (forall d :: d in scores <==> d in docIds)
            && (forall d :: d in scores ==> scores[d] == Repeated(Count(docIds, d), ScoreSum(score, terms, d)))
  {
    var n := |terms| - 1;
    PartialKeys(score, terms, |terms|, docIds, 0);
    PartialScoring(score, terms, n, docIds, |docIds|);
    var m := Partial(score, terms, n, docIds, |docIds|);
    NextTerm(m, score, terms, n, docIds);
    assert docIds[..|docIds|] == docIds;
    assert terms[..|terms|] == terms;
    forall d | d in m ensures m[d] == Repeated(Count(docIds, d), ScoreSum(score, terms, d)) {
      assert m[d] == Repeated(Count(docIds, d), ScoreSum(score, terms[..|terms|], d));
    }
    assert Partial(score, terms, |terms|, docIds, 0) == m;
  }

  /** The finished dictionary, listed in key order, is `Accumulated`. */
  lemma ItemsAreAccumulated(items: seq<Scored>, order: seq<nat>, scores: map<nat, real>,
                            score: TermScorer, terms: seq<string>, docIds: seq<nat>)
    requires order == Dedup(docIds)
    requires forall d :: d in scores ==> scores[d] == Repeated(Count(docIds, d), ScoreSum(score, terms, d))
    requires |items| == |order|
    requires forall k :: 0 <= k < |order| ==> order[k] in scores && items[k] == Scored(order[k], scores[order[k]])
    ensures items == Accumulated(score, terms, docIds)
  {
    var acc := Accumulated(score, terms, docIds);
    forall k | 0 <= k < |items| ensures items[k] == acc[k] {
      assert scores[order[k]] == Repeated(Count(docIds, order[k]), ScoreSum(score, terms, order[k]));
    }
  }

  /** The state of `rank_documents` after term `i` has been added for the
      ids of `docIds[..j]`: the dictionary's key order and its contents. */
  ghost predicate Built(score: TermScorer, terms: seq<string>, i: nat, docIds: seq<nat>, j: nat,
                        order: seq<nat>, scores: map<nat, real>)
    requires i <= |terms| && j <= |docIds| && (i == |terms| ==> j == 0)
  {
    && order == (if i == 0 then Dedup(docIds[..j]) else Dedup(docIds))
    && scores == Partial(score, terms, i, docIds, j)
  }

  /** `scores[doc_id] += score`: a new key goes to the end of the order. */
  lemma BuiltAdd(score: TermScorer, terms: seq<string>, i: nat, docIds: seq<nat>, j: nat,
                 order: seq<nat>, scores: map<nat, real>, v: real)
    requires i < |terms| && j < |docIds|
    requires Built(score, terms, i, docIds, j, order, scores)
    requires v == score(terms[i], docIds[j])
    ensures var d := docIds[j];
            Built(score, terms, i, docIds, j + 1,
                  if d in scores then order else order + [d],
                  scores[d := (if d in scores then scores[d] else 0.0) + v])
  {
    KeyOrderStep(score, terms, i, docIds, j, order);
    PartialSnoc(score, terms, i, docIds, j, scores, v);
  }

  /** The inner loop done: on to the next term. */
  lemma BuiltNextTerm(score: TermScorer, terms: seq<string>, i: nat, docIds: seq<nat>,
                      order: seq<nat>, scores: map<nat, real>)
    requires i < |terms|
    requires Built(score, terms, i, docIds, |docIds|, order, scores)
    ensures Built(score, terms, i + 1, docIds, 0, order, scores)
  {
    assert docIds[..|docIds|] == docIds;
  }

  /** Both loops done: every key listed in the order is in the dictionary. */
  lemma BuiltKeys(score: TermScorer, terms: seq<string>, docIds: seq<nat>, order: seq<nat>, scores: map<nat, real>)
    requires Built(score, terms, |terms|, docIds, 0, order, scores)
    ensures forall k :: 0 <= k < |order| ==> order[k] in scores
    ensures terms != [] && docIds != [] ==> order != []
  {
    PartialKeys(score, terms, |terms|, docIds, 0);
    DedupMembers(docIds);
    if terms != [] && docIds != [] {
      assert docIds[0] in order;
    }
  }

  /** Both loops done: the dictionary listed in key order is `Accumulated`. */
  lemma BuiltItems(score: TermScorer, terms: seq<string>, docIds: seq<nat>, order: seq<nat>, scores: map<nat, real>,
                   items: seq<Scored>)
    requires Built(score, terms, |terms|, docIds, 0, order, scores)
    requires |items| == |order|
    requires forall k :: 0 <= k < |order| ==> order[k] in scores && items[k] == Scored(order[k], scores[order[k]])
    ensures terms != [] ==> items == Accumulated(score, terms, docIds)
    ensures terms == [] || docIds == [] ==> items == []
  {
    if terms != [] {
      PartialScored(score, terms, docIds);
      ItemsAreAccumulated(items, order, scores, score, terms, docIds);
    }
    if docIds == [] {
      assert Dedup(docIds[..0]) == [];
    }
  }

  /** The `if`/`elif`/`else` inside `rank_documents`' loops: the score of
      one term for one document under the named model, or the error the
      model name or BM25's division by zero raises. */
  method ScoreOf(name: string, term: string, docId: nat, index: InvertedIndex, corpus: seq<Hotel>, ln: real -> real)
    returns (r: Result<real, RankError>)
    requires docId < |corpus| && AllComplete(corpus)
    ensures r.Ok? <==> Supported(name, corpus)
    ensures r.Ok? ==> r.value == Scorer(name, index, corpus, ln)(term, docId)
    ensures r.Err? ==> r.error == if name == TfIdfName || name == Bm25Name then ZeroDivision else UnsupportedRanking(name)
  {
    if name == TfIdfName {
      r := Ok(TfIdf(term, docId, index, corpus, ln));
    } else if name == Bm25Name {
      if TotalLength(corpus) == 0 {
        return Err(ZeroDivision);
      }
      r := Ok(Bm25(term, docId, index, corpus, ln));
    } else {
      r := Err(UnsupportedRanking(name));
    }
  }

  /** `rank_documents`: two nested loops add each term's score into a
      dictionary, which is then sorted. The model name is checked on every
      inner step, as in the source, so an unknown name raises only once
      there is a term and a document to score. */
  method RankDocuments(queryTerms: seq<string>, index: InvertedIndex, corpus: seq<Hotel>, docIds: seq<nat>,
                       rankingFunction: string, ln: real -> real)
    returns (ranked: Result<seq<Scored>, RankError>)
    requires Scorable(queryTerms, corpus, docIds)
    ensures ranked == Ranking(queryTerms, index, corpus, docIds, rankingFunction, ln)
  {
    ghost var scorer := Scorer(rankingFunction, index, corpus, ln);
    var order: seq<nat> := [];         // the dictionary's key order
    var scores: map<nat, real> := map[];
    for i := 0 to |queryTerms|
      invariant Built(scorer, queryTerms, i, docIds, 0, order, scores)
      invariant i > 0 && docIds != [] ==> Supported(rankingFunction, corpus)
    {
      var failure;
      failure, order, scores := AddTermScores(queryTerms, i, index, corpus, docIds, rankingFunction, ln, order, scores);
      if failure.Some? {
        return Err(failure.value);
      }
    }
    BuiltKeys(scorer, queryTerms, docIds, order, scores);
    var items := seq(|order|, k requires 0 <= k < |order| => Scored(order[k], scores[order[k]]));
    BuiltItems(scorer, queryTerms, docIds, order, scores, items);
    ranked := Ok(SortByScore(items));
  }

  /** One pass of the outer loop: the score of term `queryTerms[i]` added
      for every id of `docIds`, in order, or the error the first scoring
      step raises. */
  method AddTermScores(queryTerms: seq<string>, i: nat, index: InvertedIndex, corpus: seq<Hotel>, docIds: seq<nat>,
                       rankingFunction: string, ln: real -> real, order0: seq<nat>, scores0: map<nat, real>)
    returns (failure: Option<RankError>, order: seq<nat>, scores: map<nat, real>)
    requires i < |queryTerms| && Scorable(queryTerms, corpus, docIds)
    requires Built(Scorer(rankingFunction, index, corpus, ln), queryTerms, i, docIds, 0, order0, scores0)
    ensures failure.None? ==> Built(Scorer(rankingFunction, index, corpus, ln), queryTerms, i + 1, docIds, 0, order, scores)
    ensures failure.Some? <==> docIds != [] && !Supported(rankingFunction, corpus)
    ensures failure.Some? ==> failure.value == if rankingFunction == TfIdfName || rankingFunction == Bm25Name
                                               then ZeroDivision else UnsupportedRanking(rankingFunction)
  {
    ghost var scorer := Scorer(rankingFunction, index, corpus, ln);
    order, scores := order0, scores0;
    var term := queryTerms[i];
    for j := 0 to |docIds|
      invariant Built(scorer, queryTerms, i, docIds, j, order, scores)
      invariant j > 0 ==> Supported(rankingFunction, corpus)
    {
      var docId := docIds[j];
      assert docId in docIds;
      var outcome := ScoreOf(rankingFunction, term, docId, index, corpus, ln);
      if outcome.Err? {
        return Some(outcome.error), order, scores;
      }
      var score := outcome.value;
      BuiltAdd(scorer, queryTerms, i, docIds, j, order, scores, score);
      // `scores` is a defaultdict: a missing key starts at 0 and is
      // inserted, at the end of the key order, by the `+=`
      var current := if docId in scores then scores[docId] else 0.0;
      order := if docId in scores then order else order + [docId];
      scores := scores[docId := current + score];
    }
    BuiltNextTerm(scorer, queryTerms, i, docIds, order, scores);
    failure := None;
  }

  lemma {:induction false} WithScoreAppend(a: seq<Scored>, b: seq<Scored>, v: real)
    ensures WithScore(a + b, v) == WithScore(a, v) + WithScore(b, v)
  {
    if a != [] {
      assert (a + b)[1..] == a[1..] + b;
      WithScoreAppend(a[1..], b, v);
    } else {
      assert a + b == b;
    }
  }

  lemma WithScoreCons(a: Scored, t: seq<Scored>, v: real)
    ensures WithScore([a] + t, v) == (if a.score == v then [a] else []) + WithScore(t, v)
  {
    assert ([a] + t)[1..] == t;
  }

  /** In a list sorted by descending score that starts below `v`, no entry
      has score `v`. */
  lemma {:induction false} WithScoreNone(s: seq<Scored>, v: real)
    requires NonIncreasing(s) && (s != [] ==> s[0].score < v)
    ensures WithScore(s, v) == []
  {
    if |s| > 1 {
      assert s[1..][0] == s[1];
      WithScoreNone(s[1..], v);
    }
  }

  lemma IdsAppend(a: seq<Scored>, b: seq<Scored>)
    ensures Ids(a + b) == Ids(a) + Ids(b)
  {
  }

  lemma {:induction false} InsertPermutes(x: Scored, s: seq<Scored>)
    ensures multiset(Insert(x, s)) == multiset(s) + multiset{x}
  {
    if s != [] && s[0].score >= x.score {
      InsertPermutes(x, s[1..]);
      assert s == [s[0]] + s[1..];
    }
  }

  lemma {:induction false} InsertSorted(x: Scored, s: seq<Scored>)
    requires NonIncreasing(s)
    ensures NonIncreasing(Insert(x, s))
  {
    if s != [] && s[0].score >= x.score {
      var rest := Insert(x, s[1..]);
      InsertSorted(x, s[1..]);
      InsertPermutes(x, s[1..]);
      forall k | 0 <= k < |rest| ensures rest[k].score <= s[0].score {
        var e := rest[k];
        assert e in multiset(rest);
        if e != x {
          assert e in multiset(s[1..]);
          var m :| 0 <= m < |s| - 1 && s[1..][m] == e;
          assert s[m + 1] == e;
        }
      }
      assert Insert(x, s) == [s[0]] + rest;
    }
  }

  lemma {:induction false} InsertIds(x: Scored, s: seq<Scored>)
    ensures forall d :: d in Ids(Insert(x, s)) <==> d == x.id || d in Ids(s)
    ensures Distinct(Ids(s)) && x.id !in Ids(s) ==> Distinct(Ids(Insert(x, s)))
  {
    if s == [] {
      assert Ids([x]) == [x.id];
    } else if s[0].score >= x.score {
      var rest := Insert(x, s[1..]);
      InsertIds(x, s[1..]);
      assert Ids([s[0]]) == [s[0].id];
      IdsAppend([s[0]], rest);
      IdsAppend([s[0]], s[1..]);
      assert s == [s[0]] + s[1..];
      DistinctPrepend(s[0].id, Ids(rest));
      DistinctPrepend(s[0].id, Ids(s[1..]));
    } else {
      IdsAppend([x], s);
      assert Ids([x]) == [x.id];
      DistinctPrepend(x.id, Ids(s));
    }
  }

  lemma {:induction false} InsertStable(x: Scored, s: seq<Scored>, v: real)
    requires NonIncreasing(s)
    ensures WithScore(Insert(x, s), v) == WithScore(s, v) + (if x.score == v then [x] else [])
  {
    if s == [] {
      WithScoreCons(x, [], v);
    } else if s[0].score >= x.score {
      InsertStable(x, s[1..], v);
      WithScoreCons(s[0], Insert(x, s[1..]), v);
    } else {
      WithScoreCons(x, s, v);
      if x.score == v {
        WithScoreNone(s, v);
      }
    }
  }

  /** The sort puts scores in non-increasing order. */
  lemma {:induction false} SortSorts(s: seq<Scored>)
    ensures NonIncreasing(SortByScore(s))
  {
    if s != [] {
      var n := |s| - 1;
      SortSorts(s[..n]);
      InsertSorted(s[n], SortByScore(s[..n]));
    }
  }

  /** The sort is a permutation of its input. */
  lemma {:induction false} SortPermutes(s: seq<Scored>)
    ensures multiset(SortByScore(s)) == multiset(s)
  {
    if s != [] {
      var n := |s| - 1;
      SortPermutes(s[..n]);
      InsertPermutes(s[n], SortByScore(s[..n]));
      assert multiset(s) == multiset(s[..n]) + multiset{s[n]} by {
        assert s == s[..n] + [s[n]];
      }
    }
  }

  /** The sort is stable: the entries that share any one score come out in
      the order they went in. */
  lemma {:induction false} SortIsStable(s: seq<Scored>, v: real)
    ensures WithScore(SortByScore(s), v) == WithScore(s, v)
  {
    if s != [] {
      var n := |s| - 1;
      var last := if s[n].score == v then [s[n]] else [];
      SortIsStable(s[..n], v);
      SortSorts(s[..n]);
      InsertStable(s[n], SortByScore(s[..n]), v);
      assert WithScore(SortByScore(s), v) == WithScore(s[..n], v) + last;
      assert s == s[..n] + [s[n]];
      WithScoreAppend(s[..n], [s[n]], v);
      WithScoreCons(s[n], [], v);
    }
  }

  /** The sort keeps the set of ids and keeps them free of repeats. */
  lemma {:induction false} SortKeepsIds(s: seq<Scored>)
    ensures forall d :: d in Ids(SortByScore(s)) <==> d in Ids(s)
    ensures Distinct(Ids(s)) ==> Distinct(Ids(SortByScore(s)))
  {
    if s != [] {
      var n := |s| - 1;
      SortKeepsIds(s[..n]);
      InsertIds(s[n], SortByScore(s[..n]));
      assert s == s[..n] + [s[n]];
      IdsAppend(s[..n], [s[n]]);
      DistinctAppendOne(Ids(s[..n]), s[n].id);
    }
  }

  /** Every entry of the score dictionary: a distinct id of `docIds` with
      its summed score counted once per occurrence. */
  lemma AccumulatedEntries(score: TermScorer, terms: seq<string>, docIds: seq<nat>)
    ensures Ids(Accumulated(score, terms, docIds)) == Dedup(docIds)
    ensures forall e :: e in Accumulated(score, terms, docIds) ==>
              e.id in docIds && e.score == Repeated(Count(docIds, e.id), ScoreSum(score, terms, e.id))
  {
    DedupMembers(docIds);
  }

  /** Under any scorer, the ranked list holds every distinct id of `docIds`
      exactly once, in non-increasing score order, each with its per-term
      scores summed over the query terms once per occurrence of the id in
      `docIds`. */
  lemma RankWithContents(score: TermScorer, terms: seq<string>, docIds: seq<nat>)
    ensures var ranked := RankWith(score, terms, docIds);
            && NonIncreasing(ranked)
            && Distinct(Ids(ranked))
            && (forall d :: d in Ids(ranked) <==> d in docIds)
            && (forall e :: e in ranked ==> e.score == Repeated(Count(docIds, e.id), ScoreSum(score, terms, e.id)))
  {
    var acc := Accumulated(score, terms, docIds);
    AccumulatedEntries(score, terms, docIds);
    DedupMembers(docIds);
    SortSorts(acc);
    SortPermutes(acc);
    SortKeepsIds(acc);
    forall e | e in SortByScore(acc) ensures e in acc {
      assert e in multiset(SortByScore(acc));
    }
  }

  /** A ranking that succeeds lists every distinct id of `docIds` exactly
      once, in non-increasing score order, each with the selected model's
      per-term scores summed over the query terms, once per occurrence of
      the id in `docIds`. */
  lemma RankingContents(queryTerms: seq<string>, index: InvertedIndex, corpus: seq<Hotel>, docIds: seq<nat>,
                        name: string, ln: real -> real)
    requires queryTerms != [] && docIds != [] && Supported(name, corpus)
    requires Scorable(queryTerms, corpus, docIds)
    ensures Ranking(queryTerms, index, corpus, docIds, name, ln).Ok?
    ensures var ranked := Ranking(queryTerms, index, corpus, docIds, name, ln).value;
            && NonIncreasing(ranked)
            && Distinct(Ids(ranked))
            && (forall d :: d in Ids(ranked) <==> d in docIds)
            && (forall e :: e in ranked ==>
                  e.score == Repeated(Count(docIds, e.id), ScoreSum(Scorer(name, index, corpus, ln), queryTerms, e.id)))
  {
    RankWithContents(Scorer(name, index, corpus, ln), queryTerms, docIds);
  }

  /** Ties keep the dictionary's order: for every score, the entries with
      that score appear in the order in which `docIds` first lists their
      ids. */
  lemma RankingIsStable(queryTerms: seq<string>, index: InvertedIndex, corpus: seq<Hotel>, docIds: seq<nat>,
                        name: string, ln: real -> real, v: real)
    requires queryTerms != [] && docIds != [] && Supported(name, corpus)
    requires Scorable(queryTerms, corpus, docIds)
    ensures Ids(Accumulated(Scorer(name, index, corpus, ln), queryTerms, docIds)) == Dedup(docIds)
    ensures WithScore(Ranking(queryTerms, index, corpus, docIds, name, ln).value, v)
         == WithScore(Accumulated(Scorer(name, index, corpus, ln), queryTerms, docIds), v)
  {
    AccumulatedEntries(Scorer(name, index, corpus, ln), queryTerms, docIds);
    SortIsStable(Accumulated(Scorer(name, index, corpus, ln), queryTerms, docIds), v);
  }

  /** The summed score is built from the selected model's per-term scores:
      with TF-IDF or BM25 a term that does not occur in the document adds
      nothing. */
  lemma {:induction false} ScoreSumOfModel(name: string, terms: seq<string>, docId: nat, index: InvertedIndex,
                                          corpus: seq<Hotel>, ln: real -> real)
    requires Supported(name, corpus) && docId < |corpus| && AllComplete(corpus)
    requires forall k :: 0 <= k < |terms| ==> terms[k] !in IndexedTerms(corpus[docId])
    ensures ScoreSum(Scorer(name, index, corpus, ln), terms, docId) == 0.0
  {
    if terms != [] {
      var n := |terms| - 1;
      ScoreSumOfModel(name, terms[..n], docId, index, corpus, ln);
      ZeroFrequencyScoresZero(name, terms[n], docId, index, corpus, ln);
    }
  }

  lemma {:induction false} RangeCountOnce(n: nat, d: nat)
    requires d < n
    ensures Count(Range(n), d) == 1
  {
    assert Range(n) == Range(n - 1) + [n - 1];
    CountAppend(Range(n - 1), [n - 1], d);
    assert [n - 1][..0] == [];
    if d < n - 1 {
      RangeCountOnce(n - 1, d);
    } else {
      CountPositive(Range(n - 1), d);
    }
  }

  /** A repeat-free id list covering exactly `[0, n)` has length `n`. */
  lemma DistinctRangeLength(ids: seq<nat>, n: nat)
    requires Distinct(ids) && forall d: nat :: d in ids <==> d < n
    ensures |ids| == n
  {
    DistinctCardinality(ids);
    assert Elements(ids) == RangeSet(n);
    RangeSetSize(n);
  }

  /** Over `range(n)`, each document appears exactly once and its score is
      the plain sum of its per-term scores. */
  lemma RankWithOverRange(score: TermScorer, terms: seq<string>, n: nat)
    ensures var ranked := RankWith(score, terms, Range(n));
            && |ranked| == n
            && Distinct(Ids(ranked))
            && (forall d: nat :: d in Ids(ranked) <==> d < n)
            && (forall e :: e in ranked ==> e.score == ScoreSum(score, terms, e.id))
  {
    var docIds := Range(n);
    RankWithContents(score, terms, docIds);
    var ranked := RankWith(score, terms, docIds);
    forall e | e in ranked ensures e.score == ScoreSum(score, terms, e.id) {
      var k :| 0 <= k < |ranked| && ranked[k] == e;
      assert Ids(ranked)[k] == e.id;
      assert e.id in docIds;
      RangeCountOnce(n, e.id);
      assert Repeated(1, ScoreSum(score, terms, e.id)) == ScoreSum(score, terms, e.id);
    }
    DistinctRangeLength(Ids(ranked), n);
  }

  /** Over `range(total_docs)`, as every caller ranks, each document appears
      exactly once and its score is the plain sum of the selected model's
      per-term scores. */
  lemma RankingOverCorpus(queryTerms: seq<string>, index: InvertedIndex, corpus: seq<Hotel>, name: string, ln: real -> real)
    requires queryTerms != [] && |corpus| > 0 && AllComplete(corpus) && Supported(name, corpus)
    ensures Ranking(queryTerms, index, corpus, Range(|corpus|), name, ln).Ok?
    ensures var ranked := Ranking(queryTerms, index, corpus, Range(|corpus|), name, ln).value;
            && |ranked| == |corpus|
            && Distinct(Ids(ranked))
            && (forall d: nat :: d in Ids(ranked) <==> d < |corpus|)
            && (forall e :: e in ranked ==> e.score == ScoreSum(Scorer(name, index, corpus, ln), queryTerms, e.id))
  {
    RankWithOverRange(Scorer(name, index, corpus, ln), queryTerms, |corpus|);
  }

  /** Scores {0: 1.0, 1: 1.0, 2: 2.0} rank as [2, 0, 1]: descending score,
      ties in their original order. */
  lemma TieBreakExample()
    ensures SortByScore([Scored(0, 1.0), Scored(1, 1.0), Scored(2, 2.0)]) == [Scored(2, 2.0), Scored(0, 1.0), Scored(1, 1.0)]
  {
    var s := [Scored(0, 1.0), Scored(1, 1.0), Scored(2, 2.0)];
    assert s[..2] == [Scored(0, 1.0), Scored(1, 1.0)];
    assert s[..2][..1] == [Scored(0, 1.0)];
    assert [Scored(0, 1.0)][..0] == [];
    assert SortByScore([Scored(0, 1.0)]) == [Scored(0, 1.0)];
    assert Insert(Scored(1, 1.0), [Scored(0, 1.0)]) == [Scored(0, 1.0), Scored(1, 1.0)];
  }
}
