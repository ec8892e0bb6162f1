/** The processed hotel corpus and the inverted index over it.

    A document is identified by its position in the corpus. Its normalised
    `description` is a list of terms and its `features` a list of term
    lists, one per feature phrase; either key may be missing from a record,
    which the index builder tolerates and the scorers do not. */
module Corpus {
  import opened Common

  datatype Hotel = Hotel(
    name: string,
    description: Option<seq<string>>,
    features: Option<seq<seq<string>>>)

  /** Term -> ids of the documents that contain it. */
  type InvertedIndex = map<string, seq<nat>>

  /** `inverted_index.get(term, [])` */
  function Postings(index: InvertedIndex, term: string): seq<nat> {
    if term in index then index[term] else []
  }

  /** Every posting names a document of a corpus of `n` documents. */
  ghost predicate IndexBounded(index: InvertedIndex, n: nat) {
    forall t :: t in index ==> forall d :: d in index[t] ==> d < n
  }

  /** The terms a record contributes to the index: its description followed
      by every feature phrase, in order, with missing keys read as empty. */
  function IndexedTerms(h: Hotel): seq<string> {
    h.description.GetOr([]) + Flatten(h.features.GetOr([]))
  }

  /** Both keys the scorers read are present. */
  predicate Complete(h: Hotel) {
    h.description.Some? && h.features.Some?
  }

  predicate AllComplete(corpus: seq<Hotel>) {
    forall i :: 0 <= i < |corpus| ==> Complete(corpus[i])
  }

  /** `sum(feature.count(term) for feature in features)` */
  function FeatureCount(features: seq<seq<string>>, term: string): nat {
    if features == [] then 0
    else FeatureCount(features[..|features| - 1], term) + Count(features[|features| - 1], term)
  }

  /** `sum(len(feature) for feature in features)` */
  function FeatureLength(features: seq<seq<string>>): nat {
    if features == [] then 0
    else FeatureLength(features[..|features| - 1]) + |features[|features| - 1]|
  }

  /** Occurrences of `term` in the description plus in every feature phrase. */
  function TermFrequency(h: Hotel, term: string): nat
    requires Complete(h)
  {
    Count(h.description.value, term) + FeatureCount(h.features.value, term)
  }

  /** Number of terms in the description plus in every feature phrase. */
  function DocLength(h: Hotel): nat
    requires Complete(h)
  {
    |h.description.value| + FeatureLength(h.features.value)
  }

  /** Sum of the document lengths of the whole corpus. */
  function TotalLength(corpus: seq<Hotel>): nat
    requires AllComplete(corpus)
  {
    if corpus == [] then 0
    else TotalLength(corpus[..|corpus| - 1]) + DocLength(corpus[|corpus| - 1])
  }

  lemma {:induction false} FeatureCountFlatten(features: seq<seq<string>>, term: string)
    ensures FeatureCount(features, term) == Count(Flatten(features), term)
  {
    if features != [] {
      var n := |features| - 1;
      FeatureCountFlatten(features[..n], term);
      CountAppend(Flatten(features[..n]), features[n], term);
    }
  }

  lemma {:induction false} FeatureLengthFlatten(features: seq<seq<string>>)
    ensures FeatureLength(features) == |Flatten(features)|
  {
    if features != [] {
      FeatureLengthFlatten(features[..|features| - 1]);
    }
  }

  /** Term frequency and document length are measured over exactly the
      terms the index builder files the document under, so a document has
      a non-zero frequency for a term iff the index lists it for that term. */
  lemma FrequencyCountsIndexedTerms(h: Hotel, term: string)
    requires Complete(h)
    ensures TermFrequency(h, term) == Count(IndexedTerms(h), term)
    ensures TermFrequency(h, term) > 0 <==> term in IndexedTerms(h)
    ensures DocLength(h) == |IndexedTerms(h)|
  {
    FeatureCountFlatten(h.features.value, term);
    FeatureLengthFlatten(h.features.value);
    CountAppend(h.description.value, Flatten(h.features.value), term);
    CountPositive(IndexedTerms(h), term);
  }
}
