/** The query parser: a raw query string becomes an ordered list of
    (operator, term group) clauses.

    The tokens `AND`, `OR` and `NOT`, matched exactly and case-sensitively,
    only change the operator in force; every other token is normalised
    (lower-cased, tokenised, non-alphabetic tokens and stop words removed,
    stemmed) and, if that leaves any term, becomes a clause under the
    operator in force. The normaliser is a
    parameter: it is a library pipeline this model does not look inside. */
module QueryParser {
  import opened Common
  import opened Tokens

  const Operators: set<string> := {"AND", "OR", "NOT"}

  /** The operator in force before any operator token has been read. */
  const DefaultOperator: string := "AND"

  datatype Clause = Clause(op: string, terms: seq<string>)

  /** The operator in force after reading `tokens`, having started with
      `start`. */
  function OperatorAfter(start: string, tokens: seq<string>): (op: string)
    ensures op == start || op in Operators
  {
    if tokens == [] then start
    else if tokens[|tokens| - 1] in Operators then tokens[|tokens| - 1]
    else OperatorAfter(start, tokens[..|tokens| - 1])
  }

  /** The clauses read from `tokens`, having started with operator `start`. */
  function ParseFrom(start: string, tokens: seq<string>, normalize: string -> seq<string>): seq<Clause> {
    if tokens == [] then []
    else
      var before, token := tokens[..|tokens| - 1], tokens[|tokens| - 1];
      if token in Operators || normalize(token) == [] then ParseFrom(start, before, normalize)
      else ParseFrom(start, before, normalize) + [Clause(OperatorAfter(start, before), normalize(token))]
  }

  /** `parse_query(query)` */
  function Parse(query: string, normalize: string -> seq<string>): seq<Clause> {
    ParseFrom(DefaultOperator, Split(query), normalize)
  }

  /** `parse_query`: one pass over the tokens, updating the operator in force
      and appending a clause for every token that normalises to something. */
  method ParseQuery(query: string, normalize: string -> seq<string>) returns (parsedQuery: seq<Clause>)
    ensures parsedQuery == Parse(query, normalize)
  {
    var tokens := Split(query);
    parsedQuery := [];
    var currentOperator := DefaultOperator;
    for i := 0 to |tokens|
      invariant currentOperator == OperatorAfter(DefaultOperator, tokens[..i])
      invariant parsedQuery == ParseFrom(DefaultOperator, tokens[..i], normalize)
    {
      assert tokens[..i + 1][..i] == tokens[..i];
      var token := tokens[i];
      if token in Operators {
        currentOperator := token;
      } else {
        var preprocessedTerm := normalize(token);
        if preprocessedTerm != [] {
          parsedQuery := parsedQuery + [Clause(currentOperator, preprocessedTerm)];
        }
      }
    }
    assert tokens[..|tokens|] == tokens;
  }

  /** `[term for _, terms in parsed_query for term in terms]`: the query's
      terms with the operators discarded, in clause order. */
  function ProcessedTerms(clauses: seq<Clause>): seq<string> {
    if clauses == [] then []
    else ProcessedTerms(clauses[..|clauses| - 1]) + clauses[|clauses| - 1].terms
  }

  /** A clause list the boolean evaluator accepts: known operators and no
      empty term group. */
  ghost predicate WellFormed(clauses: seq<Clause>) {
    forall k :: 0 <= k < |clauses| ==> clauses[k].op in Operators && clauses[k].terms != []
  }

  /** Every clause the parser emits has a known operator and a non-empty
      term group. */
  lemma {:induction false} ParsedClausesWellFormed(start: string, tokens: seq<string>, normalize: string -> seq<string>)
    requires start in Operators
    ensures WellFormed(ParseFrom(start, tokens, normalize))
  {
    if tokens != [] {
      ParsedClausesWellFormed(start, tokens[..|tokens| - 1], normalize);
    }
  }

  /** With no operator token read, the start operator is still in force. */
  lemma {:induction false} OperatorAfterNoOperator(start: string, tokens: seq<string>)
    requires forall j :: 0 <= j < |tokens| ==> tokens[j] !in Operators
    ensures OperatorAfter(start, tokens) == start
  {
    if tokens != [] {
      var n := |tokens| - 1;
      assert tokens[n] !in Operators;
      OperatorAfterNoOperator(start, tokens[..n]);
    }
  }

  /** Otherwise the operator in force is the most recent operator token. */
  lemma {:induction false} OperatorAfterIsLatest(start: string, tokens: seq<string>, j: nat)
    requires j < |tokens| && tokens[j] in Operators
    requires forall m :: j < m < |tokens| ==> tokens[m] !in Operators
    ensures OperatorAfter(start, tokens) == tokens[j]
  {
    var n := |tokens| - 1;
    if j < n {
      assert tokens[n] !in Operators;
      OperatorAfterIsLatest(start, tokens[..n], j);
    }
  }

  /** Each clause comes from one non-operator token, carries exactly that
      token's normalisation, and the operator in force just before it. */
  lemma {:induction false} ClauseOrigin(start: string, tokens: seq<string>, normalize: string -> seq<string>, k: nat)
    requires k < |ParseFrom(start, tokens, normalize)|
    ensures exists i :: 0 <= i < |tokens| && tokens[i] !in Operators &&
                        ParseFrom(start, tokens, normalize)[k] == Clause(OperatorAfter(start, tokens[..i]), normalize(tokens[i]))
  {
    var n := |tokens| - 1;
    var before := tokens[..n];
    var prior := ParseFrom(start, before, normalize);
    if k < |prior| {
      ClauseOrigin(start, before, normalize, k);
      var i :| 0 <= i < n && before[i] !in Operators &&
               prior[k] == Clause(OperatorAfter(start, before[..i]), normalize(before[i]));
      assert before[..i] == tokens[..i];
    } else {
      assert before == tokens[..n];
    }
  }

  /** Parsing a concatenation parses the second part under the operator in
      force at the end of the first. */
  lemma {:induction false} ParseAppend(start: string, a: seq<string>, b: seq<string>, normalize: string -> seq<string>)
    ensures OperatorAfter(start, a + b) == OperatorAfter(OperatorAfter(start, a), b)
    ensures ParseFrom(start, a + b, normalize) == ParseFrom(start, a, normalize) + ParseFrom(OperatorAfter(start, a), b, normalize)
  {
    if b == [] {
      assert a + b == a;
    } else {
      var n := |b| - 1;
      assert (a + b)[..|a + b| - 1] == a + b[..n];
      ParseAppend(start, a, b[..n], normalize);
    }
  }

  /** Operator tokens with no term between them only update the operator in
      force: the last one wins, so "AND AND x" parses like "AND x". */
  lemma OperatorRunCollapses(start: string, o1: string, o2: string, rest: seq<string>, normalize: string -> seq<string>)
    requires o1 in Operators && o2 in Operators
    ensures ParseFrom(start, [o1, o2] + rest, normalize) == ParseFrom(start, [o2] + rest, normalize)
  {
    ParseAppend(start, [o1, o2], rest, normalize);
    ParseAppend(start, [o2], rest, normalize);
    assert [o1, o2][..1] == [o1];
  }

  /** A leading "AND" restates the default operator and changes nothing. */
  lemma LeadingAndIsNoOp(rest: seq<string>, normalize: string -> seq<string>)
    ensures ParseFrom(DefaultOperator, ["AND"] + rest, normalize) == ParseFrom(DefaultOperator, rest, normalize)
  {
    ParseAppend(DefaultOperator, ["AND"], rest, normalize);
  }

  /** An empty query or one made only of operator tokens has no clauses. */
  lemma {:induction false} OperatorsOnlyParseEmpty(start: string, tokens: seq<string>, normalize: string -> seq<string>)
    requires forall j :: 0 <= j < |tokens| ==> tokens[j] in Operators
    ensures ParseFrom(start, tokens, normalize) == []
  {
    if tokens != [] {
      OperatorsOnlyParseEmpty(start, tokens[..|tokens| - 1], normalize);
    }
  }

  /** Recognition is exact: "And" or "and" is not an operator but an
      ordinary token; it is normalised like any word and adds a clause under
      the operator in force only if a term is left. */
  lemma CaseVariantsAreOrdinaryTokens(start: string, before: seq<string>, normalize: string -> seq<string>)
    ensures "And" !in Operators && "and" !in Operators
    ensures ParseFrom(start, before + ["And"], normalize)
         == ParseFrom(start, before, normalize)
            + (if normalize("And") == [] then [] else [Clause(OperatorAfter(start, before), normalize("And"))])
  {
    assert (before + ["And"])[..|before|] == before;
  }

  /** A non-operator token that normalises to nothing (a stop word such as
      "And" under the program's normaliser) is invisible: it neither adds a
      clause nor changes the operator in force for the tokens after it. */
  lemma DroppedTokenIsInvisible(start: string, before: seq<string>, w: string, after: seq<string>,
                                normalize: string -> seq<string>)
    requires w !in Operators && normalize(w) == []
    ensures ParseFrom(start, before + [w] + after, normalize) == ParseFrom(start, before + after, normalize)
  {
    assert (before + [w])[..|before|] == before;
    ParseAppend(start, before + [w], after, normalize);
    ParseAppend(start, before, after, normalize);
  }

  /** The query text itself: tokens joined by spaces parse token by token,
      so "AND AND pool" and "AND pool" give the same clauses as "pool". */
  lemma QueryTextParsesTokens(words: seq<string>, normalize: string -> seq<string>)
    requires forall k :: 0 <= k < |words| ==> IsWord(words[k])
    ensures Parse(Join(words), normalize) == ParseFrom(DefaultOperator, words, normalize)
  {
    SplitJoin(words);
  }

  /** The flattened term list is empty exactly when there are no clauses,
      and every term comes from some clause's group. */
  lemma {:induction false} ProcessedTermsFacts(clauses: seq<Clause>)
    requires WellFormed(clauses)
    ensures ProcessedTerms(clauses) == [] <==> clauses == []
    ensures forall t :: t in ProcessedTerms(clauses) <==> exists k :: 0 <= k < |clauses| && t in clauses[k].terms
  {
    if clauses != [] {
      var n := |clauses| - 1;
      ProcessedTermsFacts(clauses[..n]);
      forall t | t in ProcessedTerms(clauses)
        ensures exists k :: 0 <= k < |clauses| && t in clauses[k].terms
      {
        if t !in clauses[n].terms {
          var k :| 0 <= k < n && t in clauses[..n][k].terms;
          assert t in clauses[k].terms;
        }
      }
      forall t, k | 0 <= k < |clauses| && t in clauses[k].terms
        ensures t in ProcessedTerms(clauses)
      {
        if k < n {
          assert clauses[..n][k] == clauses[k];
        }
      }
    }
  }
}
