/**
 * The records the service exchanges with the form-submission API and with
 * its own clients.
 */
module Types {

  import opened Wrappers

  /** A scalar as JSON delivers it: a string or a (finite) number. */
  datatype Scalar = Text(text: string) | Number(number: real)

  /** One answered question; `value == None` is a JSON `null` (no answer). */
  datatype Question = Question(id: string, name: string, kind: string, value: Option<Scalar>)

  datatype Calculation = Calculation(id: string, name: string, kind: string, value: string)

  datatype UrlParameter = UrlParameter(id: string, name: string, value: string)

  datatype Quiz = Quiz(score: real, maxScore: real)

  /** One form submission. */
  datatype Submission = Submission(
    submissionId: string,
    submissionTime: string,
    lastUpdatedAt: string,
    questions: seq<Question>,
    calculations: seq<Calculation>,
    urlParameters: seq<UrlParameter>,
    quiz: Quiz)

  /**
   * One filter clause. The condition is kept as the text the client sent:
   * only "equals", "does_not_equal", "greater_than" and "less_than" are
   * understood; any other text is a configuration error.
   */
  datatype FilterClause = FilterClause(id: string, condition: string, value: Scalar)

  /**
   * A page of submissions, both as the upstream API returns it and as the
   * service answers its own clients.
   */
  datatype ResponseBody = ResponseBody(responses: seq<Submission>, totalResponses: int, pageCount: int)

  /** The errors the service can raise, each with the message it carries. */
  datatype Error =
    | UnknownCondition
    | FilterNotString
    | BadFilterJson(reason: string)
    | UpstreamFailed(reason: string)
  {
    function Message(): string
    {
      match this
      case UnknownCondition =>
        "condition is not one of ['equals', 'does_not_equal', 'greater_than', 'less_than']"
      case FilterNotString => "filter must be stringified JSON"
      case BadFilterJson(reason) => reason
      case UpstreamFailed(reason) => reason
    }
  }

  const EQUALS := "equals"
  const DOES_NOT_EQUAL := "does_not_equal"
  const GREATER_THAN := "greater_than"
  const LESS_THAN := "less_than"

  predicate IsKnownCondition(condition: string)
  {
    condition in [EQUALS, DOES_NOT_EQUAL, GREATER_THAN, LESS_THAN]
  }

  /** Puts submissions in front of the list an outcome carries; a failure stays a failure. */
  function Prepend(kept: seq<Submission>, r: Result<seq<Submission>, Error>): Result<seq<Submission>, Error>
  {
    match r
    case Failure(e) => Failure(e)
    case Success(rest) => Success(kept + rest)
  }

  lemma PrependAssociative(a: seq<Submission>, b: seq<Submission>, r: Result<seq<Submission>, Error>)
    ensures Prepend(a, Prepend(b, r)) == Prepend(a + b, r)
  {
    if r.Success? {
      assert a + (b + r.value) == (a + b) + r.value;
    }
  }

  lemma PrependNothing(r: Result<seq<Submission>, Error>)
    ensures Prepend([], r) == r
  {
    if r.Success? {
      assert [] + r.value == r.value;
    }
  }
}
