/** The two per-(term, document) relevance scores, TF-IDF and BM25.

    Both keep the source's structure exactly; only the natural logarithm is
    left abstract (the parameter `ln`), and floating point becomes exact
    real arithmetic. Term frequency and document length are the integer
    counts of the corpus module. */
module Scoring {
  import opened Common
  import opened Corpus

  /** The names `rank_documents` accepts for its scoring model. */
  const TfIdfName: string := "TF-IDF"
  const Bm25Name: string := "BM25"

  /** BM25's fixed parameters. */
  const K1: real := 1.5
  const B: real := 0.75

  /** `calculate_tf_idf(term, doc_id, inverted_index, processed_data)`:
      `(1 + ln tf) * ln(N / (1 + df))` when the term occurs, else 0. */
  function TfIdf(term: string, docId: nat, index: InvertedIndex, corpus: seq<Hotel>, ln: real -> real): real
    requires docId < |corpus| && Complete(corpus[docId])
  {
    var tf := TermFrequency(corpus[docId], term);
    var df := |Postings(index, term)|;
    if tf > 0 then (1.0 + ln(tf as real)) * ln((|corpus| as real) / ((1 + df) as real)) else 0.0
  }

  /** Mean document length over the whole corpus. */
  function AverageDocLength(corpus: seq<Hotel>): real
    requires AllComplete(corpus) && |corpus| > 0
  {
    TotalLength(corpus) as real / |corpus| as real
  }

  /** The smoothed ("+1") BM25 inverse document frequency. */
  function Bm25Idf(totalDocs: nat, df: nat, ln: real -> real): real {
    ln((totalDocs as real - df as real + 0.5) / (df as real + 0.5) + 1.0)
  }

  lemma DivisionNonNegative(x: real, y: real)
    requires x >= 0.0 && y > 0.0
    ensures x / y >= 0.0
  {
  }

  /** BM25's saturating, length-normalised term-frequency factor. */
  function TfNorm(tf: nat, docLength: nat, avgDocLength: real): real
    requires avgDocLength > 0.0
  {
    DivisionNonNegative(docLength as real, avgDocLength);
    var ratio := docLength as real / avgDocLength;
    (tf as real * (K1 + 1.0)) / (tf as real + K1 * (1.0 - B + B * ratio))
  }

  /** `calculate_bm25(term, doc_id, inverted_index, processed_data)`. It
      reads every record of the corpus for the average length, and divides
      by that average, so it needs a corpus of non-zero total length. */
  function Bm25(term: string, docId: nat, index: InvertedIndex, corpus: seq<Hotel>, ln: real -> real): real
    requires docId < |corpus| && AllComplete(corpus) && TotalLength(corpus) > 0
  {
    var h := corpus[docId];
    DivisionNonNegative(TotalLength(corpus) as real, |corpus| as real);
    assert AverageDocLength(corpus) > 0.0;
    Bm25Idf(|corpus|, |Postings(index, term)|, ln) * TfNorm(TermFrequency(h, term), DocLength(h), AverageDocLength(corpus))
  }

  /** The scoring model can run on this corpus: TF-IDF always, BM25 only
      when the corpus has a non-zero total length. */
  predicate Supported(name: string, corpus: seq<Hotel>) {
    || name == TfIdfName
    || (name == Bm25Name && AllComplete(corpus) && TotalLength(corpus) > 0)
  }

  /** The per-term score `rank_documents` adds for the selected model. */
  function TermScore(name: string, term: string, docId: nat, index: InvertedIndex, corpus: seq<Hotel>, ln: real -> real): real
    requires Supported(name, corpus) && docId < |corpus| && AllComplete(corpus)
  {
    if name == TfIdfName then TfIdf(term, docId, index, corpus, ln) else Bm25(term, docId, index, corpus, ln)
  }

  /** Under either model a term contributes exactly 0 to a document in which
      it does not occur, and a term occurs in a document iff the document is
      filed under it, so only indexed (term, document) pairs score. */
  lemma ZeroFrequencyScoresZero(name: string, term: string, docId: nat, index: InvertedIndex, corpus: seq<Hotel>, ln: real -> real)
    requires Supported(name, corpus) && docId < |corpus| && AllComplete(corpus)
    requires term !in IndexedTerms(corpus[docId])
    ensures TermFrequency(corpus[docId], term) == 0
    ensures TermScore(name, term, docId, index, corpus, ln) == 0.0
  {
    FrequencyCountsIndexedTerms(corpus[docId], term);
  }

  lemma FractionLess(a: real, b: real, x: real, y: real)
    requires b > 0.0 && y > 0.0 && a * y < x * b
    ensures a / b < x / y
  {
    var p, q := a / b, x / y;
    assert p * b == a && q * y == x;
    assert p * b * y < q * y * b;
  }

  /** The BM25 factor is 0 for an absent term and saturates: it stays below
      `K1 + 1` however often the term occurs. */
  lemma TfNormBounds(tf: nat, docLength: nat, avgDocLength: real)
    requires avgDocLength > 0.0
    ensures tf == 0 ==> TfNorm(tf, docLength, avgDocLength) == 0.0
    ensures 0.0 <= TfNorm(tf, docLength, avgDocLength) < K1 + 1.0
  {
    DivisionNonNegative(docLength as real, avgDocLength);
    var ratio := docLength as real / avgDocLength;
    var c := K1 * (1.0 - B + B * ratio);
    assert c > 0.0;
    var t := tf as real;
    DivisionNonNegative(t * (K1 + 1.0), t + c);
    FractionLess(t * (K1 + 1.0), t + c, K1 + 1.0, 1.0);
  }

  /** Holding everything else fixed, a higher term frequency gives a strictly
      higher BM25 factor. */
  lemma TfNormIncreasing(tf1: nat, tf2: nat, docLength: nat, avgDocLength: real)
    requires avgDocLength > 0.0 && tf1 < tf2
    ensures TfNorm(tf1, docLength, avgDocLength) < TfNorm(tf2, docLength, avgDocLength)
  {
    DivisionNonNegative(docLength as real, avgDocLength);
    var ratio := docLength as real / avgDocLength;
    var c := K1 * (1.0 - B + B * ratio);
    assert c > 0.0;
    var t1, t2 := tf1 as real, tf2 as real;
    assert t1 * c < t2 * c;
    assert (t1 * (K1 + 1.0)) * (t2 + c) < (t2 * (K1 + 1.0)) * (t1 + c);
    FractionLess(t1 * (K1 + 1.0), t1 + c, t2 * (K1 + 1.0), t2 + c);
  }

  /** The smoothed idf is positive for any term filed under at most every
      document, given only that the logarithm is positive above 1. */
  lemma Bm25IdfPositive(totalDocs: nat, df: nat, ln: real -> real)
    requires forall x :: x > 1.0 ==> ln(x) > 0.0
    requires df <= totalDocs
    ensures Bm25Idf(totalDocs, df, ln) > 0.0
  {
    DivisionNonNegative(totalDocs as real - df as real + 0.5, df as real + 0.5);
  }

  /** BM25 monotonicity: with the corpus statistics held fixed, a document
      that contains the term more often earns a strictly larger BM25
      contribution, which stays below `idf * (K1 + 1)`. */
  lemma Bm25MonotoneInFrequency(totalDocs: nat, df: nat, tf1: nat, tf2: nat, docLength: nat, avgDocLength: real, ln: real -> real)
    requires forall x :: x > 1.0 ==> ln(x) > 0.0
    requires df <= totalDocs && avgDocLength > 0.0 && tf1 < tf2
    ensures var idf := Bm25Idf(totalDocs, df, ln);
            idf * TfNorm(tf1, docLength, avgDocLength) < idf * TfNorm(tf2, docLength, avgDocLength) < idf * (K1 + 1.0)
  {
    Bm25IdfPositive(totalDocs, df, ln);
    TfNormIncreasing(tf1, tf2, docLength, avgDocLength);
    TfNormBounds(tf2, docLength, avgDocLength);
    var idf := Bm25Idf(totalDocs, df, ln);
    var f1, f2 := TfNorm(tf1, docLength, avgDocLength), TfNorm(tf2, docLength, avgDocLength);
    assert idf * (f2 - f1) > 0.0;
    assert idf * ((K1 + 1.0) - f2) > 0.0;
  }
}
