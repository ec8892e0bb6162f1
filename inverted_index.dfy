/** The inverted-index builder: one pass over the corpus, filing every
    document under each distinct term of its description and feature
    phrases. Documents are visited in id order, so every posting list comes
    out in strictly ascending order.

    As a side effect the builder extends each record's own description list
    with its feature terms: the list it appends to is the record's list, not
    a copy. A record without a description reads as empty and is left as it
    is. */
module IndexBuilder {
  import opened Common
  import opened Corpus

  /** Ids in strictly ascending order, hence without repeats. */
  ghost predicate StrictlyAscending(s: seq<nat>) {
    forall i, j :: 0 <= i < j < |s| ==> s[i] < s[j]
  }

  /** The index with document `docId` filed under every term of `terms`. */
  function AddDoc(index: InvertedIndex, docId: nat, terms: set<string>): InvertedIndex {
    map t | t in index.Keys + terms :: if t in terms then Postings(index, t) + [docId] else index[t]
  }

  /** The index `build_inverted_index` returns for `corpus`. */
  function IndexOf(corpus: seq<Hotel>): InvertedIndex {
    if corpus == [] then map[]
    else
      var n := |corpus| - 1;
      AddDoc(IndexOf(corpus[..n]), n, Elements(IndexedTerms(corpus[n])))
  }

  /** A record after the builder has read it: a present description is
      extended with every feature phrase, in order; nothing else changes. */
  function Extended(h: Hotel): Hotel {
    if h.description.Some? then h.(description := Some(h.description.value + Flatten(h.features.GetOr([]))))
    else h
  }

  /** The corpus once the first `n` records have been read. */
  function ExtendedPrefix(s: seq<Hotel>, n: nat): (r: seq<Hotel>)
    requires n <= |s|
  {
    seq(|s|, i requires 0 <= i < |s| => if i < n then Extended(s[i]) else s[i])
  }

  lemma ExtendedPrefixStep(s: seq<Hotel>, n: nat)
    requires n < |s|
    ensures ExtendedPrefix(s, n)[n := Extended(s[n])] == ExtendedPrefix(s, n + 1)
  {
  }

  /** `build_inverted_index(processed_data)`: the two halves of each
      iteration, combining a record's terms and filing the document under
      them, are the methods below. */
  method BuildInvertedIndex(corpus: array<Hotel>) returns (index: InvertedIndex)
    modifies corpus
    ensures index == IndexOf(old(corpus[..]))
    ensures forall i :: 0 <= i < corpus.Length ==> corpus[i] == Extended(old(corpus[i]))
  {
    ghost var original := corpus[..];
    index := map[];
    for docId := 0 to corpus.Length
      invariant index == IndexOf(original[..docId])
      invariant corpus[..] == ExtendedPrefix(original, docId)
    {
      assert corpus[docId] == corpus[..][docId];
      var terms := CombineTerms(corpus, docId);
      index := FileDocument(index, docId, terms);
      IndexOfSnoc(original, docId);
      ExtendedPrefixStep(original, docId);
    }
    assert original[..corpus.Length] == original;
    assert forall i :: 0 <= i < corpus.Length ==> corpus[i] == corpus[..][i];
  }

  /** The record's terms: its description list, extended in place with
      every feature phrase when the record has a description, or a fresh
      list when it has none. */
  method CombineTerms(corpus: array<Hotel>, docId: nat) returns (terms: seq<string>)
    requires docId < corpus.Length
    modifies corpus
    ensures terms == IndexedTerms(old(corpus[docId]))
    ensures corpus[..] == old(corpus[..])[docId := Extended(old(corpus[docId]))]
  {
    var hotel := corpus[docId];
    var features := hotel.features.GetOr([]);
    terms := hotel.description.GetOr([]);
    for k := 0 to |features|
      invariant terms == hotel.description.GetOr([]) + Flatten(features[..k])
      invariant corpus[..] == old(corpus[..])[docId := if hotel.description.Some? then hotel.(description := Some(terms)) else hotel]
    {
      terms := terms + features[k];
      assert features[..k + 1][..k] == features[..k];
      if hotel.description.Some? {
        // `terms` is the record's own description list
        corpus[docId] := hotel.(description := Some(terms));
      }
    }
    assert features[..|features|] == features;
  }

  /** The document filed under each distinct term of `terms`; the set of
      terms is visited in no fixed order. */
  method FileDocument(index: InvertedIndex, docId: nat, terms: seq<string>) returns (result: InvertedIndex)
    ensures result == AddDoc(index, docId, Elements(terms))
  {
    AddDocNone(index, docId);
    result := index;
    var remaining := Elements(terms);
    ghost var done: set<string> := {};
    while remaining != {}
      invariant FilingState(index, docId, terms, remaining, done, result)
      decreases |remaining|
    {
      var term :| term in remaining;
      FilingStep(index, docId, terms, remaining, done, result, term);
      result := result[term := Postings(result, term) + [docId]];
      remaining := remaining - {term};
      done := done + {term};
    }
    FilingDone(index, docId, terms, done, result);
  }

  /** Partway through: the terms `done` have been filed and the terms
      `remaining` have not. */
  ghost predicate FilingState(index: InvertedIndex, docId: nat, terms: seq<string>, remaining: set<string>,
                              done: set<string>, result: InvertedIndex)
  {
    done <= Elements(terms) && remaining == Elements(terms) - done && result == AddDoc(index, docId, done)
  }

  lemma AddDocNone(index: InvertedIndex, docId: nat)
    ensures AddDoc(index, docId, {}) == index
  {
  }

  lemma FilingStep(index: InvertedIndex, docId: nat, terms: seq<string>, remaining: set<string>,
                   done: set<string>, result: InvertedIndex, term: string)
    requires FilingState(index, docId, terms, remaining, done, result) && term in remaining
    ensures FilingState(index, docId, terms, remaining - {term}, done + {term}, result[term := Postings(result, term) + [docId]])
  {
    AddDocStep(index, docId, done, term);
  }

  lemma FilingDone(index: InvertedIndex, docId: nat, terms: seq<string>, done: set<string>, result: InvertedIndex)
    requires FilingState(index, docId, terms, {}, done, result)
    ensures result == AddDoc(index, docId, Elements(terms))
  {
    forall t | t in Elements(terms) ensures t in done {
      assert t !in Elements(terms) - done;
    }
    assert done == Elements(terms);
  }

  lemma IndexOfSnoc(corpus: seq<Hotel>, n: nat)
    requires n < |corpus|
    ensures IndexOf(corpus[..n + 1]) == AddDoc(IndexOf(corpus[..n]), n, Elements(IndexedTerms(corpus[n])))
  {
    assert corpus[..n + 1][..n] == corpus[..n];
  }

  /** Filing the document under one more term. */
  lemma AddDocStep(index: InvertedIndex, docId: nat, done: set<string>, t: string)
    requires t !in done
    ensures AddDoc(index, docId, done + {t}) == AddDoc(index, docId, done)[t := Postings(AddDoc(index, docId, done), t) + [docId]]
  {
    assert Postings(AddDoc(index, docId, done), t) == Postings(index, t);
  }

  /** The posting list of one term after filing a document. */
  lemma PostingsAddDoc(index: InvertedIndex, docId: nat, terms: set<string>, t: string)
    ensures Postings(AddDoc(index, docId, terms), t) == if t in terms then Postings(index, t) + [docId] else Postings(index, t)
  {
  }

  /** A document is filed under a term iff the term occurs in its
      description or in one of its feature phrases. */
  lemma {:induction false} PostingsOfIndexOf(corpus: seq<Hotel>, t: string)
    ensures forall d: nat :: d in Postings(IndexOf(corpus), t) <==> d < |corpus| && t in IndexedTerms(corpus[d])
  {
    if corpus != [] {
      var n := |corpus| - 1;
      PostingsOfIndexOf(corpus[..n], t);
      PostingsAddDoc(IndexOf(corpus[..n]), n, Elements(IndexedTerms(corpus[n])), t);
      forall d: nat | d < n ensures corpus[..n][d] == corpus[d] {}
    }
  }

  /** Documents are filed in id order, so every posting list is strictly
      ascending: no document is listed twice under one term. */
  lemma {:induction false} PostingsAscending(corpus: seq<Hotel>, t: string)
    ensures StrictlyAscending(Postings(IndexOf(corpus), t))
  {
    if corpus != [] {
      var n := |corpus| - 1;
      var before := Postings(IndexOf(corpus[..n]), t);
      PostingsAscending(corpus[..n], t);
      PostingsOfIndexOf(corpus[..n], t);
      PostingsAddDoc(IndexOf(corpus[..n]), n, Elements(IndexedTerms(corpus[n])), t);
      assert forall i :: 0 <= i < |before| ==> before[i] in before;
    }
  }

  /** A term is a key of the index iff some document is filed under it: the
      index holds no empty posting list. */
  lemma {:induction false} KeysHavePostings(corpus: seq<Hotel>, t: string)
    ensures t in IndexOf(corpus) <==> Postings(IndexOf(corpus), t) != []
  {
    if corpus != [] {
      var n := |corpus| - 1;
      KeysHavePostings(corpus[..n], t);
      PostingsAddDoc(IndexOf(corpus[..n]), n, Elements(IndexedTerms(corpus[n])), t);
    }
  }

  /** The keys of the index are exactly the terms occurring somewhere in the
      corpus, and every posting names a document of the corpus. */
  lemma IndexKeysAndBounds(corpus: seq<Hotel>, t: string)
    ensures t in IndexOf(corpus) <==> exists d :: 0 <= d < |corpus| && t in IndexedTerms(corpus[d])
    ensures IndexBounded(IndexOf(corpus), |corpus|)
  {
    KeysHavePostings(corpus, t);
    PostingsOfIndexOf(corpus, t);
    if t in IndexOf(corpus) {
      var p := Postings(IndexOf(corpus), t);
      assert p[0] in p;
    }
    forall u | u in IndexOf(corpus) ensures forall d :: d in IndexOf(corpus)[u] ==> d < |corpus| {
      PostingsOfIndexOf(corpus, u);
    }
  }

  /** The builder's write-back: the name and features are kept, a record
      without a description or without features is left as it is, and the
      extended record contributes the same set of terms as before. */
  lemma ExtendedKeepsTerms(h: Hotel)
    ensures Extended(h).name == h.name && Extended(h).features == h.features
    ensures h.description.None? ==> Extended(h) == h
    ensures h.features.None? ==> Extended(h) == h
    ensures Elements(IndexedTerms(Extended(h))) == Elements(IndexedTerms(h))
  {
    if h.features.None? && h.description.Some? {
      assert Flatten<string>([]) == [];
      assert h.description.value + [] == h.description.value;
    }
  }

  /** Hence building the index again over the corpus the builder has just
      extended gives back the same index. */
  lemma {:induction false} RebuildSameIndex(corpus: seq<Hotel>)
    ensures IndexOf(ExtendedPrefix(corpus, |corpus|)) == IndexOf(corpus)
  {
    if corpus != [] {
      var n := |corpus| - 1;
      var extended := ExtendedPrefix(corpus, |corpus|);
      assert extended[..n] == ExtendedPrefix(corpus[..n], n);
      RebuildSameIndex(corpus[..n]);
      ExtendedKeepsTerms(corpus[n]);
    }
  }
}
