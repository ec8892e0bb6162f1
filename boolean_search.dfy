/** The boolean evaluator: a strict left-to-right fold of the parsed clauses
    over the set of document ids, starting from every id in
    `[0, total_docs)`. No precedence and no grouping: clause order is the
    evaluation order. */
module BooleanSearch {
  import opened Common
  import opened Corpus
  import opened QueryParser

  /** The two ways `boolean_search` raises: `set.union()` called with no
      argument (a clause with an empty term group) and an operator other
      than AND, OR and NOT. */
  datatype SearchError = EmptyTermGroup | UnsupportedOperator(op: string)

  /** The ids filed under any of `terms`; a term missing from the index
      contributes nothing. */
  function TermDocs(index: InvertedIndex, terms: seq<string>): (docs: set<nat>)
    ensures forall d :: d in docs <==> exists t :: t in terms && d in Postings(index, t)
  {
    if terms == [] then {}
    else
      var postings := Postings(index, terms[|terms| - 1]);
      TermDocs(index, terms[..|terms| - 1]) + set d | d in postings
  }

  /** One clause step applied to the running result. */
  function Combine(op: string, acc: set<nat>, termDocs: set<nat>): (r: Result<set<nat>, SearchError>)
    ensures r.Err? <==> op !in Operators
    ensures r.Err? ==> r.error == UnsupportedOperator(op)
    ensures op == "AND" ==> r.Ok? && r.value <= acc && r.value <= termDocs
    ensures op == "OR" ==> r.Ok? && acc <= r.value && termDocs <= r.value
    ensures op == "NOT" ==> r.Ok? && r.value <= acc && r.value !! termDocs
  {
    if op == "AND" then Ok(acc * termDocs)
    else if op == "OR" then Ok(acc + termDocs)
    else if op == "NOT" then Ok(acc - termDocs)
    else Err(UnsupportedOperator(op))
  }

  /** `boolean_search(parsed_query, inverted_index, total_docs)` */
  function Evaluate(clauses: seq<Clause>, index: InvertedIndex, totalDocs: nat): Result<set<nat>, SearchError> {
    if clauses == [] then Ok(RangeSet(totalDocs))
    else
      match Evaluate(clauses[..|clauses| - 1], index, totalDocs)
      case Err(e) => Err(e)
      case Ok(acc) =>
        var c := clauses[|clauses| - 1];
        if c.terms == [] then Err(EmptyTermGroup) else Combine(c.op, acc, TermDocs(index, c.terms))
  }

  /** `boolean_search`: the running result set is updated in place, one
      clause at a time. */
  method BooleanSearch(parsedQuery: seq<Clause>, index: InvertedIndex, totalDocs: nat)
    returns (result: Result<set<nat>, SearchError>)
    ensures result == Evaluate(parsedQuery, index, totalDocs)
  {
    var resultSet := RangeSet(totalDocs);
    for i := 0 to |parsedQuery|
      invariant Evaluate(parsedQuery[..i], index, totalDocs) == Ok(resultSet)
    {
      assert parsedQuery[..i + 1][..i] == parsedQuery[..i];
      var Clause(operator, terms) := parsedQuery[i];
      if terms == [] {
        ErrorPersists(parsedQuery, index, totalDocs, i + 1);
        return Err(EmptyTermGroup);
      }
      var termDocs := TermDocs(index, terms);
      if operator == "AND" {
        resultSet := resultSet * termDocs;
      } else if operator == "OR" {
        resultSet := resultSet + termDocs;
      } else if operator == "NOT" {
        resultSet := resultSet - termDocs;
      } else {
        ErrorPersists(parsedQuery, index, totalDocs, i + 1);
        return Err(UnsupportedOperator(operator));
      }
    }
    assert parsedQuery[..|parsedQuery|] == parsedQuery;
    return Ok(resultSet);
  }

  /** The first failing clause decides the outcome: later clauses are not
      looked at. */
  lemma {:induction false} ErrorPersists(clauses: seq<Clause>, index: InvertedIndex, totalDocs: nat, i: nat)
    requires i <= |clauses|
    requires Evaluate(clauses[..i], index, totalDocs).Err?
    ensures Evaluate(clauses, index, totalDocs) == Evaluate(clauses[..i], index, totalDocs)
    decreases |clauses| - i
  {
    if i < |clauses| {
      var n := |clauses| - 1;
      assert clauses[..i] == clauses[..n][..i];
      ErrorPersists(clauses[..n], index, totalDocs, i);
    } else {
      assert clauses[..i] == clauses;
    }
  }

  /** One more clause: AND and NOT never grow the result, OR never shrinks
      it, and after NOT the result shares nothing with the clause's
      postings. */
  lemma ClauseStep(clauses: seq<Clause>, c: Clause, index: InvertedIndex, totalDocs: nat)
    requires Evaluate(clauses + [c], index, totalDocs).Ok?
    ensures Evaluate(clauses, index, totalDocs).Ok? && c.terms != [] && c.op in Operators
    ensures var before, after := Evaluate(clauses, index, totalDocs).value, Evaluate(clauses + [c], index, totalDocs).value;
            && (c.op == "AND" ==> after <= before && after <= TermDocs(index, c.terms))
            && (c.op == "OR" ==> before <= after && TermDocs(index, c.terms) <= after)
            && (c.op == "NOT" ==> after <= before && after !! TermDocs(index, c.terms))
  {
    assert (clauses + [c])[..|clauses|] == clauses;
  }

  /** In the evaluator as copied into the service: an AND clause never grows
      the result and an OR clause never shrinks it. */
  lemma AndOrStep(clauses: seq<Clause>, terms: seq<string>, index: InvertedIndex, totalDocs: nat)
    requires terms != [] && Evaluate(clauses, index, totalDocs).Ok?
    ensures Evaluate(clauses + [Clause("AND", terms)], index, totalDocs).value <= Evaluate(clauses, index, totalDocs).value
    ensures Evaluate(clauses, index, totalDocs).value <= Evaluate(clauses + [Clause("OR", terms)], index, totalDocs).value
  {
    assert (clauses + [Clause("AND", terms)])[..|clauses|] == clauses;
    assert (clauses + [Clause("OR", terms)])[..|clauses|] == clauses;
  }

  /** In the evaluator as copied into the ground-truth builder: a NOT clause
      leaves the result disjoint from the clause's postings. */
  lemma NotStep(clauses: seq<Clause>, terms: seq<string>, index: InvertedIndex, totalDocs: nat)
    requires terms != [] && Evaluate(clauses, index, totalDocs).Ok?
    ensures Evaluate(clauses + [Clause("NOT", terms)], index, totalDocs).value !! TermDocs(index, terms)
    ensures forall t, d :: t in terms && d in Postings(index, t) ==> d !in Evaluate(clauses + [Clause("NOT", terms)], index, totalDocs).value
  {
    assert (clauses + [Clause("NOT", terms)])[..|clauses|] == clauses;
  }

  /** Clauses with known operators and non-empty groups never raise. */
  lemma {:induction false} WellFormedEvaluates(clauses: seq<Clause>, index: InvertedIndex, totalDocs: nat)
    requires WellFormed(clauses)
    ensures Evaluate(clauses, index, totalDocs).Ok?
  {
    if clauses != [] {
      WellFormedEvaluates(clauses[..|clauses| - 1], index, totalDocs);
    }
  }

  /** So a parsed query never raises, whatever the index. */
  lemma ParsedQueryEvaluates(query: string, normalize: string -> seq<string>, index: InvertedIndex, totalDocs: nat)
    ensures Evaluate(Parse(query, normalize), index, totalDocs).Ok?
  {
    ParsedClausesWellFormed(DefaultOperator, Tokens.Split(query), normalize);
    WellFormedEvaluates(Parse(query, normalize), index, totalDocs);
  }

  /** The ids a query selects: parsing never yields a clause the evaluator
      rejects, so the boolean search of a parsed query always succeeds. */
  function MatchingDocs(query: string, normalize: string -> seq<string>, index: InvertedIndex, totalDocs: nat): set<nat> {
    ParsedQueryEvaluates(query, normalize, index, totalDocs);
    Evaluate(Parse(query, normalize), index, totalDocs).value
  }

  /** If every posting is below `totalDocs`, so is every id in the result;
      with no clause at all the result is every id in `[0, totalDocs)`. */
  lemma {:induction false} EvaluateWithinRange(clauses: seq<Clause>, index: InvertedIndex, totalDocs: nat)
    requires IndexBounded(index, totalDocs)
    requires Evaluate(clauses, index, totalDocs).Ok?
    ensures Evaluate(clauses, index, totalDocs).value <= RangeSet(totalDocs)
    ensures clauses == [] ==> Evaluate(clauses, index, totalDocs).value == RangeSet(totalDocs)
  {
    if clauses != [] {
      var n := |clauses| - 1;
      var c := clauses[n];
      EvaluateWithinRange(clauses[..n], index, totalDocs);
      if c.op == "OR" {
        forall d | d in TermDocs(index, c.terms) ensures d < totalDocs {
          var t :| t in c.terms && d in Postings(index, t);
        }
      }
    }
  }

  /** Boolean laws on a repeated group `g`: "g AND g" and "g OR g" select
      what "g" selects, and "g NOT g" selects nothing. */
  lemma RepeatedGroupLaws(g: seq<string>, index: InvertedIndex, totalDocs: nat)
    requires g != [] && IndexBounded(index, totalDocs)
    ensures Evaluate([Clause("AND", g), Clause("AND", g)], index, totalDocs) == Evaluate([Clause("AND", g)], index, totalDocs)
    ensures Evaluate([Clause("AND", g), Clause("OR", g)], index, totalDocs) == Evaluate([Clause("AND", g)], index, totalDocs)
    ensures Evaluate([Clause("AND", g), Clause("NOT", g)], index, totalDocs) == Ok({})
  {
    var single := [Clause("AND", g)];
    assert [Clause("AND", g), Clause("AND", g)][..1] == single;
    assert [Clause("AND", g), Clause("OR", g)][..1] == single;
    assert [Clause("AND", g), Clause("NOT", g)][..1] == single;
    assert single[..0] == [];
    var docs := TermDocs(index, g);
    forall d | d in docs ensures d in RangeSet(totalDocs) {
      var t :| t in g && d in Postings(index, t);
    }
    assert Evaluate(single, index, totalDocs) == Ok(RangeSet(totalDocs) * docs);
    assert RangeSet(totalDocs) * docs == docs;
    assert docs + docs == docs;
    assert docs - docs == {};
  }

  /** "pool AND spa" over {pool: [0, 1], spa: [1, 2]} with three documents
      selects document 1 only. */
  lemma PoolAndSpaExample()
    ensures Evaluate([Clause("AND", ["pool"]), Clause("AND", ["spa"])], map["pool" := [0, 1], "spa" := [1, 2]], 3) == Ok({1})
  {
    var index: InvertedIndex := map["pool" := [0, 1], "spa" := [1, 2]];
    var cs := [Clause("AND", ["pool"]), Clause("AND", ["spa"])];
    assert cs[..1] == [Clause("AND", ["pool"])];
    assert [Clause("AND", ["pool"])][..0] == [];
    assert ["pool"][..0] == [] && ["spa"][..0] == [];
    assert TermDocs(index, ["pool"]) == {0, 1};
    assert TermDocs(index, ["spa"]) == {1, 2};
    assert Evaluate([], index, 3) == Ok(RangeSet(3));
    assert RangeSet(3) * {0, 1} == {0, 1};
    assert Evaluate(cs[..1], index, 3) == Ok({0, 1});
    assert {0, 1} * {1, 2} == {1};
  }
}
