/**
 * The filter evaluator: coercion of an answer and a clause value to one
 * kind, the four comparisons, the per-submission verdict over a clause list (as written and corrected)
 * and the filtering of a whole list of submissions.
 */
module Filter {

  import opened Wrappers
  import opened JsValues
  import opened Types

  /** Two values brought to the same kind: both numbers or both strings. */
  datatype Coerced = Numbers(questionNumber: JsNumber, filterNumber: JsNumber) | Strings(questionText: string, filterText: string)

  /** `Number(v)` for a string or number. */
  function ScalarToNumber(v: Scalar): JsNumber
  {
    match v
    case Text(s) => StringToNumber(s)
    case Number(x) => Num(x)
  }

  /**
   * Both values become numbers when either of them is a number; otherwise
   * both are strings and stay as they are.
   */
  function MakeBothNumbersOrStrings(questionValue: Scalar, filterValue: Scalar): (r: Coerced)
    ensures r.Numbers? <==> questionValue.Number? || filterValue.Number?
    ensures r.Numbers? ==> r.questionNumber == ScalarToNumber(questionValue) && r.filterNumber == ScalarToNumber(filterValue)
    ensures r.Strings? ==> r.questionText == questionValue.text && r.filterText == filterValue.text
  {
    if questionValue.Number? || filterValue.Number? then
      Numbers(ScalarToNumber(questionValue), ScalarToNumber(filterValue))
    else
      Strings(questionValue.text, filterValue.text)
  }

  /** JavaScript `===` on the coerced pair: NaN equals nothing. */
  predicate StrictEquals(c: Coerced)
  {
    match c
    case Numbers(a, b) => a.Num? && b.Num? && a.value == b.value
    case Strings(a, b) => a == b
  }

  /** JavaScript `>` on the coerced pair: false whenever NaN is involved. */
  predicate Greater(c: Coerced)
  {
    match c
    case Numbers(a, b) => a.Num? && b.Num? && a.value > b.value
    case Strings(a, b) => StringLess(b, a)
  }

  /** JavaScript `<` on the coerced pair: false whenever NaN is involved. */
  predicate Less(c: Coerced)
  {
    match c
    case Numbers(a, b) => a.Num? && b.Num? && a.value < b.value
    case Strings(a, b) => StringLess(a, b)
  }

  /** The `switch` on the condition; an unknown condition throws. */
  function Compare(condition: string, c: Coerced): (r: Result<bool, Error>)
    ensures r.Failure? <==> !IsKnownCondition(condition)
    ensures r.Failure? ==> r.error == UnknownCondition
  {
    if condition == EQUALS then Success(StrictEquals(c))
    else if condition == DOES_NOT_EQUAL then Success(!StrictEquals(c))
    else if condition == GREATER_THAN then Success(Greater(c))
    else if condition == LESS_THAN then Success(Less(c))
    else Failure(UnknownCondition)
  }

  /** `questions.find(q => q.id === id)`: the first question with that id. */
  function FindQuestion(questions: seq<Question>, id: string): (r: Option<Question>)
    ensures r.None? <==> forall i :: 0 <= i < |questions| ==> questions[i].id != id
    ensures r.Some? ==> exists i :: 0 <= i < |questions| && questions[i] == r.value && r.value.id == id &&
                                    forall j :: 0 <= j < i ==> questions[j].id != id
  {
    if questions == [] then None
    else if questions[0].id == id then Some(questions[0])
    else
      var r := FindQuestion(questions[1..], id);
      assert r.Some? ==> exists i :: 0 <= i < |questions| - 1 && questions[1..][i] == r.value && r.value.id == id &&
                                     forall j :: 0 <= j < i ==> questions[1..][j].id != id;
      r
  }

  /** What one clause does to one submission. */
  datatype Step = Excluded | Compared(holds: bool) | Thrown(error: Error)

  /** The submission answers the clause's question: it is present with a non-null value. */
  predicate Answers(response: Submission, clause: FilterClause)
  {
    var q := FindQuestion(response.questions, clause.id);
    q.Some? && q.value.value.Some?
  }

  /**
   * One iteration of the clause loop: a missing or null answer excludes the
   * submission, otherwise the coerced values are compared.
   */
  function EvaluateClause(response: Submission, clause: FilterClause): (s: Step)
    ensures s.Excluded? <==> !Answers(response, clause)
    ensures s.Thrown? <==> Answers(response, clause) && !IsKnownCondition(clause.condition)
    ensures s.Thrown? ==> s.error == UnknownCondition
  {
    match FindQuestion(response.questions, clause.id)
    case None => Excluded
    case Some(q) =>
      if q.value.None? then Excluded
      else
        match Compare(clause.condition, MakeBothNumbersOrStrings(q.value.value, clause.value))
        case Failure(e) => Thrown(e)
        case Success(b) => Compared(b)
  }

  /**
   * The verdict of the clause loop as written, starting from flag `valid`:
   * an excluded clause stops the loop with false, a thrown error stops it
   * with that error, and a comparison OVERWRITES the flag and goes on.
   */
  function Verdict(response: Submission, clauses: seq<FilterClause>, valid: bool): Result<bool, Error>
    decreases |clauses|
  {
    if clauses == [] then Success(valid)
    else match EvaluateClause(response, clauses[0])
      case Excluded => Success(false)
      case Thrown(e) => Failure(e)
      case Compared(b) => Verdict(response, clauses[1..], b)
  }

  /** The filter callback: walks the clauses with a mutable `valid` flag. */
  method IsKept(response: Submission, clauses: seq<FilterClause>) returns (r: Result<bool, Error>)
    ensures r == Verdict(response, clauses, true)
  {
    var valid := true;
    var i := 0;
    while i < |clauses|
      invariant 0 <= i <= |clauses|
      invariant Verdict(response, clauses, true) == Verdict(response, clauses[i..], valid)
    {
      var clause := clauses[i];
      var question := FindQuestion(response.questions, clause.id);
      if question.None? {
        valid := false;
        break;
      }
      if question.value.value.None? {
        valid := false;
        break;
      }
      var coerced := MakeBothNumbersOrStrings(question.value.value.value, clause.value);
      if clause.condition == EQUALS {
        valid := StrictEquals(coerced);
      } else if clause.condition == DOES_NOT_EQUAL {
        valid := !StrictEquals(coerced);
      } else if clause.condition == GREATER_THAN {
        valid := Greater(coerced);
      } else if clause.condition == LESS_THAN {
        valid := Less(coerced);
      } else {
        return Failure(UnknownCondition);
      }
      assert clauses[i..][1..] == clauses[i + 1..];
      i := i + 1;
    }
    return Success(valid);
  }

  /**
   * The evidently intended verdict: every clause must hold (an AND), and the
   * loop stops at the first clause that does not.
   */
  function ConjunctiveVerdict(response: Submission, clauses: seq<FilterClause>): Result<bool, Error>
    decreases |clauses|
  {
    if clauses == [] then Success(true)
    else match EvaluateClause(response, clauses[0])
      case Excluded => Success(false)
      case Thrown(e) => Failure(e)
      case Compared(b) => if b then ConjunctiveVerdict(response, clauses[1..]) else Success(false)
  }

  /** The corrected callback: the loop stops at the first clause that fails. */
  method IsKeptConjunctive(response: Submission, clauses: seq<FilterClause>) returns (r: Result<bool, Error>)
    ensures r == ConjunctiveVerdict(response, clauses)
  {
    var i := 0;
    while i < |clauses|
      invariant 0 <= i <= |clauses|
      invariant ConjunctiveVerdict(response, clauses) == ConjunctiveVerdict(response, clauses[i..])
    {
      var clause := clauses[i];
      var question := FindQuestion(response.questions, clause.id);
      if question.None? || question.value.value.None? {
        return Success(false);
      }
      var outcome := Compare(clause.condition, MakeBothNumbersOrStrings(question.value.value.value, clause.value));
      if outcome.Failure? {
        return Failure(outcome.error);
      }
      if !outcome.value {
        return Success(false);
      }
      assert clauses[i..][1..] == clauses[i + 1..];
      i := i + 1;
    }
    return Success(true);
  }

  /**
   * The callback handed to lodash `filter`: the clause loop as written, or
   * with `corrected` the loop that stops at the first clause that fails.
   */
  function Callback(clauses: seq<FilterClause>, corrected: bool): Submission -> Result<bool, Error>
  {
    if corrected then response => ConjunctiveVerdict(response, clauses)
    else response => Verdict(response, clauses, true)
  }

  /**
   * lodash `filter` with a callback that may throw: the submissions, in
   * their order, for which the callback gives true; the first error thrown
   * aborts the pass.
   */
  function FilterSpec(responses: seq<Submission>, keep: Submission -> Result<bool, Error>): Result<seq<Submission>, Error>
    decreases |responses|
  {
    if responses == [] then Success([])
    else match keep(responses[0])
      case Failure(e) => Failure(e)
      case Success(kept) =>
        match FilterSpec(responses[1..], keep)
        case Failure(e) => Failure(e)
        case Success(rest) => Success(if kept then [responses[0]] + rest else rest)
  }

  /** `filterResponses`: the pass over the submissions, calling the clause loop for each. */
  method FilterResponses(responses: seq<Submission>, clauses: seq<FilterClause>, corrected: bool)
    returns (r: Result<seq<Submission>, Error>)
    ensures r == FilterSpec(responses, Callback(clauses, corrected))
  {
    ghost var keep := Callback(clauses, corrected);
    var kept: seq<Submission> := [];
    var i := 0;
    assert responses[0..] == responses;
    PrependNothing(FilterSpec(responses, keep));
    while i < |responses|
      invariant 0 <= i <= |responses|
      invariant FilterSpec(responses, keep) == Prepend(kept, FilterSpec(responses[i..], keep))
    {
      var verdict;
      if corrected {
        verdict := IsKeptConjunctive(responses[i], clauses);
      } else {
        verdict := IsKept(responses[i], clauses);
      }
      assert verdict == keep(responses[i]);
      assert responses[i..][1..] == responses[i + 1..];
      if verdict.Failure? {
        return Failure(verdict.error);
      }
      PrependAssociative(kept, if verdict.value then [responses[i]] else [], FilterSpec(responses[i + 1..], keep));
      if verdict.value {
        kept := kept + [responses[i]];
      } else {
        assert kept + [] == kept;
      }
      i := i + 1;
    }
    assert kept + [] == kept;
    return Success(kept);
  }
}

/**
 * What the filter evaluator guarantees, where the clause loop as written
 * departs from an AND of its clauses, and what the corrected filter keeps.
 */
module FilterProperties {

  import opened Wrappers
  import opened JsValues
  import opened Types
  import opened Filter
  import opened Sequences

  // ---------------------------------------------------------------------
  // Coercion and comparison

  /** A numeric answer given as text is compared as a number against a numeric clause value. */
  lemma CoercesNumericText()
    ensures MakeBothNumbersOrStrings(Text("10"), Number(5.0)) == Numbers(Num(10.0), Num(5.0))
  {
    assert NatToString(10) == "10";
    NumberOfNatToString(10);
  }

  /** Two texts are compared as texts, unchanged. */
  lemma TextsStayTexts(a: string, b: string)
    ensures MakeBothNumbersOrStrings(Text(a), Text(b)) == Strings(a, b)
  {
  }

  /** "equals" and "does_not_equal" always answer, and answer opposite ways. */
  lemma EqualsComplementsDoesNotEqual(c: Coerced)
    ensures Compare(EQUALS, c).Success? && Compare(DOES_NOT_EQUAL, c).Success?
    ensures Compare(DOES_NOT_EQUAL, c).value == !Compare(EQUALS, c).value
  {
  }

  /** "greater_than" and "less_than" never both hold. */
  lemma GreaterAndLessExclusive(c: Coerced)
    ensures !(Compare(GREATER_THAN, c).value && Compare(LESS_THAN, c).value)
  {
    if c.Strings? {
      StringLessAsymmetric(c.questionText, c.filterText);
    }
  }

  /** The orderings are strict: equal values are neither greater nor less. */
  lemma OrderingsAreStrict(c: Coerced)
    requires StrictEquals(c)
    ensures !Greater(c) && !Less(c)
  {
    if c.Strings? {
      StringLessIrreflexive(c.questionText);
    }
  }

  /** Without NaN, exactly one of equal, greater and less holds. */
  lemma Trichotomy(c: Coerced)
    requires c.Numbers? ==> c.questionNumber.Num? && c.filterNumber.Num?
    ensures StrictEquals(c) || Greater(c) || Less(c)
  {
    if c.Strings? && c.questionText != c.filterText {
      StringLessTotal(c.questionText, c.filterText);
    }
  }

  /** Any comparison with NaN is false, so only "does_not_equal" holds. */
  lemma NaNComparesFalse(c: Coerced)
    requires c.Numbers? && (c.questionNumber.NaN? || c.filterNumber.NaN?)
    ensures Compare(EQUALS, c) == Success(false) && Compare(DOES_NOT_EQUAL, c) == Success(true)
    ensures Compare(GREATER_THAN, c) == Success(false) && Compare(LESS_THAN, c) == Success(false)
  {
  }

  // ---------------------------------------------------------------------
  // The clause loop as written

  /** Every clause of `clauses` reaches a comparison. */
  predicate AllCompared(response: Submission, clauses: seq<FilterClause>)
  {
    forall k :: 0 <= k < |clauses| ==> EvaluateClause(response, clauses[k]).Compared?
  }

  /**
   * A missing or null answer excludes the submission whatever its condition
   * (also "does_not_equal"), and the clauses after it are never looked at.
   */
  lemma {:induction false} ExcludedStopsTheLoop(response: Submission, before: seq<FilterClause>, clause: FilterClause,
                                                after: seq<FilterClause>, valid: bool)
    requires AllCompared(response, before)
    requires !Answers(response, clause)
    ensures Verdict(response, before + [clause] + after, valid) == Success(false)
    decreases |before|
  {
    var all := before + [clause] + after;
    if before == [] {
      assert all[0] == clause;
    } else {
      assert all[0] == before[0];
      assert all[1..] == before[1..] + [clause] + after;
      ExcludedStopsTheLoop(response, before[1..], clause, after, EvaluateClause(response, before[0]).holds);
    }
  }

  /** An unknown condition throws as soon as a submission reaches its clause. */
  lemma {:induction false} UnknownConditionThrows(response: Submission, before: seq<FilterClause>, clause: FilterClause,
                                                  after: seq<FilterClause>, valid: bool)
    requires AllCompared(response, before)
    requires Answers(response, clause) && !IsKnownCondition(clause.condition)
    ensures Verdict(response, before + [clause] + after, valid) == Failure(UnknownCondition)
    decreases |before|
  {
    var all := before + [clause] + after;
    if before == [] {
      assert all[0] == clause;
    } else {
      assert all[0] == before[0];
      assert all[1..] == before[1..] + [clause] + after;
      UnknownConditionThrows(response, before[1..], clause, after, EvaluateClause(response, before[0]).holds);
    }
  }

  /**
   * When every clause reaches its comparison, the verdict is the LAST
   * clause's comparison: the earlier results are overwritten.
   */
  lemma {:induction false} VerdictIsLastComparison(response: Submission, clauses: seq<FilterClause>, valid: bool)
    requires clauses != [] && AllCompared(response, clauses)
    ensures Verdict(response, clauses, valid) == Success(EvaluateClause(response, clauses[|clauses| - 1]).holds)
    decreases |clauses|
  {
    if |clauses| > 1 {
      assert AllCompared(response, clauses[1..]) by {
        forall k | 0 <= k < |clauses| - 1 ensures EvaluateClause(response, clauses[1..][k]).Compared? {
          assert clauses[1..][k] == clauses[k + 1];
        }
      }
      VerdictIsLastComparison(response, clauses[1..], EvaluateClause(response, clauses[0]).holds);
    } else {
      assert EvaluateClause(response, clauses[0]).Compared?;
    }
  }

  // ---------------------------------------------------------------------
  // The intended conjunction

  /** With no unknown condition, the corrected verdict is exactly the AND of the clauses. */
  lemma {:induction false} ConjunctiveVerdictIsAnd(response: Submission, clauses: seq<FilterClause>)
    requires forall k :: 0 <= k < |clauses| ==> IsKnownCondition(clauses[k].condition)
    ensures ConjunctiveVerdict(response, clauses) ==
            Success(forall k :: 0 <= k < |clauses| ==> EvaluateClause(response, clauses[k]) == Compared(true))
    decreases |clauses|
  {
    if clauses != [] {
      assert IsKnownCondition(clauses[0].condition);
      var rest := clauses[1..];
      assert forall k :: 0 <= k < |rest| ==> rest[k] == clauses[k + 1];
      ConjunctiveVerdictIsAnd(response, rest);
      if EvaluateClause(response, clauses[0]) == Compared(true) {
        assert (forall k :: 0 <= k < |clauses| ==> EvaluateClause(response, clauses[k]) == Compared(true)) <==>
               (forall k :: 0 <= k < |rest| ==> EvaluateClause(response, rest[k]) == Compared(true)) by {
          if forall k :: 0 <= k < |rest| ==> EvaluateClause(response, rest[k]) == Compared(true) {
            forall k | 0 <= k < |clauses| ensures EvaluateClause(response, clauses[k]) == Compared(true) {
              if k > 0 {
                assert clauses[k] == rest[k - 1];
              }
            }
          }
        }
      }
    }
  }

  /** A true corrected verdict means every clause reached its comparison and held. */
  lemma {:induction false} TrueVerdictMeansEveryClauseHolds(response: Submission, clauses: seq<FilterClause>)
    requires ConjunctiveVerdict(response, clauses) == Success(true)
    ensures forall k :: 0 <= k < |clauses| ==> EvaluateClause(response, clauses[k]) == Compared(true)
    decreases |clauses|
  {
    if clauses != [] {
      assert EvaluateClause(response, clauses[0]) == Compared(true);
      TrueVerdictMeansEveryClauseHolds(response, clauses[1..]);
      forall k | 0 < k < |clauses| ensures EvaluateClause(response, clauses[k]) == Compared(true) {
        assert clauses[k] == clauses[1..][k - 1];
      }
    }
  }

  /** The code as written agrees with the AND when there is at most one clause. */
  lemma AtMostOneClauseIsConjunction(response: Submission, clauses: seq<FilterClause>)
    requires |clauses| <= 1
    ensures Verdict(response, clauses, true) == ConjunctiveVerdict(response, clauses)
  {
    if |clauses| == 1 {
      assert clauses[1..] == [];
    }
  }

  /**
   * With two clauses the code as written keeps a submission that fails the
   * first clause, because the second comparison overwrites the first.
   */
  lemma LastClauseOverridesEarlier()
    ensures var response := Submission("s", "", "", [Question("q", "Q", "NumberInput", Some(Number(1.0)))], [], [], Quiz(0.0, 10.0));
            var clauses := [FilterClause("q", EQUALS, Number(2.0)), FilterClause("q", EQUALS, Number(1.0))];
            Verdict(response, clauses, true) == Success(true) && ConjunctiveVerdict(response, clauses) == Success(false)
  {
    var response := Submission("s", "", "", [Question("q", "Q", "NumberInput", Some(Number(1.0)))], [], [], Quiz(0.0, 10.0));
    var clauses := [FilterClause("q", EQUALS, Number(2.0)), FilterClause("q", EQUALS, Number(1.0))];
    assert FindQuestion(response.questions, "q") == Some(response.questions[0]);
    assert MakeBothNumbersOrStrings(Number(1.0), Number(2.0)) == Numbers(Num(1.0), Num(2.0));
    assert MakeBothNumbersOrStrings(Number(1.0), Number(1.0)) == Numbers(Num(1.0), Num(1.0));
    assert EvaluateClause(response, clauses[0]) == Compared(false);
    assert EvaluateClause(response, clauses[1]) == Compared(true);
    assert clauses[1..] == [clauses[1]];
    assert clauses[1..][1..] == [];
    assert Verdict(response, clauses[1..], false) == Verdict(response, [], true);
  }

  // ---------------------------------------------------------------------
  // Filtering a list of submissions

  /** A successful filtering keeps an order-preserving subsequence of its input. */
  lemma {:induction false} FilterIsSubsequence(responses: seq<Submission>, keep: Submission -> Result<bool, Error>)
    requires FilterSpec(responses, keep).Success?
    ensures IsSubsequence(FilterSpec(responses, keep).value, responses)
    decreases |responses|
  {
    if responses != [] {
      FilterIsSubsequence(responses[1..], keep);
      var rest := FilterSpec(responses[1..], keep).value;
      assert [responses[0]] + responses[1..] == responses;
      if keep(responses[0]).value {
        SubsequenceConsBoth(rest, responses[0], responses[1..]);
      } else {
        SubsequenceOfLonger(rest, responses[0], responses[1..]);
      }
    }
  }

  /** With no clauses every submission is kept, in order, by the loop as written and by the corrected one. */
  lemma {:induction false} NoClausesKeepsEverything(responses: seq<Submission>, corrected: bool)
    ensures FilterSpec(responses, Callback([], corrected)) == Success(responses)
    decreases |responses|
  {
    if responses != [] {
      NoClausesKeepsEverything(responses[1..], corrected);
      assert Callback([], corrected)(responses[0]) == Success(true);
      assert [responses[0]] + responses[1..] == responses;
    }
  }

  /** A submission is kept exactly when it is in the input and the callback gives true for it. */
  lemma {:induction false} FilterMembership(responses: seq<Submission>, keep: Submission -> Result<bool, Error>, x: Submission)
    requires FilterSpec(responses, keep).Success?
    ensures x in FilterSpec(responses, keep).value <==> x in responses && keep(x) == Success(true)
    decreases |responses|
  {
    if responses != [] {
      FilterMembership(responses[1..], keep, x);
      assert responses == [responses[0]] + responses[1..];
      assert x in responses <==> x == responses[0] || x in responses[1..];
    }
  }

  /** Every submission the corrected filter keeps answers every clause and satisfies it. */
  lemma KeptSubmissionsSatisfyEveryClause(responses: seq<Submission>, clauses: seq<FilterClause>, x: Submission)
    requires FilterSpec(responses, Callback(clauses, true)).Success?
    requires x in FilterSpec(responses, Callback(clauses, true)).value
    ensures x in responses
    ensures forall k :: 0 <= k < |clauses| ==> Answers(x, clauses[k]) && EvaluateClause(x, clauses[k]) == Compared(true)
  {
    FilterMembership(responses, Callback(clauses, true), x);
    TrueVerdictMeansEveryClauseHolds(x, clauses);
  }

  /**
   * Every submission the filter as written keeps, when all its clauses reach
   * a comparison, satisfies the last clause, and possibly no other.
   */
  lemma KeptAsWrittenSatisfiesTheLastClause(responses: seq<Submission>, clauses: seq<FilterClause>, x: Submission)
    requires FilterSpec(responses, Callback(clauses, false)).Success?
    requires x in FilterSpec(responses, Callback(clauses, false)).value
    requires clauses != [] && AllCompared(x, clauses)
    ensures x in responses && EvaluateClause(x, clauses[|clauses| - 1]) == Compared(true)
  {
    FilterMembership(responses, Callback(clauses, false), x);
    VerdictIsLastComparison(x, clauses, true);
  }

  /**
   * The pass throws exactly when the callback throws for some submission;
   * in particular filtering no submissions never throws.
   */
  lemma {:induction false} FilterThrowsIffSomeVerdictThrows(responses: seq<Submission>, keep: Submission -> Result<bool, Error>)
    ensures FilterSpec(responses, keep).Failure? <==>
            exists i :: 0 <= i < |responses| && keep(responses[i]).Failure?
    decreases |responses|
  {
    if responses != [] {
      FilterThrowsIffSomeVerdictThrows(responses[1..], keep);
      var tail := responses[1..];
      if exists i :: 0 <= i < |tail| && keep(tail[i]).Failure? {
        var i :| 0 <= i < |tail| && keep(tail[i]).Failure?;
        assert responses[i + 1] == tail[i];
      }
      if exists i :: 0 <= i < |responses| && keep(responses[i]).Failure? {
        var i :| 0 <= i < |responses| && keep(responses[i]).Failure?;
        if i > 0 {
          assert tail[i - 1] == responses[i];
        }
      }
    }
  }

  /**
   * An unknown condition after a clause that fails: the code as written
   * still reaches it and throws, while the corrected loop stops before it,
   * so the corrected filter keeps nothing and does not throw.
   */
  lemma UnknownConditionAfterAFailingClause()
    ensures var response := Submission("s", "", "", [Question("q", "Q", "NumberInput", Some(Number(1.0)))], [], [], Quiz(0.0, 10.0));
            var clauses := [FilterClause("q", EQUALS, Number(2.0)), FilterClause("q", "contains", Number(1.0))];
            FilterSpec([response], Callback(clauses, false)) == Failure(UnknownCondition) &&
            FilterSpec([response], Callback(clauses, true)) == Success([])
  {
    var response := Submission("s", "", "", [Question("q", "Q", "NumberInput", Some(Number(1.0)))], [], [], Quiz(0.0, 10.0));
    var clauses := [FilterClause("q", EQUALS, Number(2.0)), FilterClause("q", "contains", Number(1.0))];
    assert FindQuestion(response.questions, "q") == Some(response.questions[0]);
    assert MakeBothNumbersOrStrings(Number(1.0), Number(2.0)) == Numbers(Num(1.0), Num(2.0));
    assert EvaluateClause(response, clauses[0]) == Compared(false);
    assert !IsKnownCondition("contains");
    assert EvaluateClause(response, clauses[1]) == Thrown(UnknownCondition);
    assert clauses[1..] == [clauses[1]];
    assert Verdict(response, clauses, true) == Failure(UnknownCondition);
    assert ConjunctiveVerdict(response, clauses) == Success(false);
    assert [response][1..] == [];
  }
}
