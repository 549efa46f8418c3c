/** The `JsonMatches` constraint: a text matches the expected JSON text when
    both decode and their canonical forms (object members sorted by key at
    every depth) are the same tree. Decoding is a parameter: the outcome of
    `json_decode` on a text, either a value tree or a syntax error. */
module JsonMatchesConstraint {
  import opened Wrappers
  import opened JsonValue
  import opened Canonical
  import opened Equivalence
  import Pretty
  import Exporter

  /** What decoding a JSON text produced: the value, or the decoder's error. */
  type Decoder = string -> Result<Json, string>

  /** The constraint, holding the expected JSON text. */
  datatype JsonMatches = JsonMatches(value: string)

  /** The comparison attached to a failure: both decoded values, both
      canonical forms pretty-printed, and the comparison's own message. */
  datatype ComparisonFailure = ComparisonFailure(
    expected: Json,
    actual: Json,
    expectedAsString: string,
    actualAsString: string,
    message: string)

  /** The exception a failed expectation raises. */
  datatype ExpectationFailed = ExpectationFailed(message: string, comparisonFailure: Option<ComparisonFailure>)

  /** What `evaluate` does: return a verdict (result mode), return nothing
      (throwing mode, success), or raise (throwing mode, failure). */
  datatype Outcome = Returned(result: bool) | Passed | Raised(failure: ExpectationFailed)

  const Prefix: string := "matches JSON string \""

  /** The message of every comparison a mismatch attaches. */
  const MismatchMessage: string := "Failed asserting that two json values are equal."

  /** `toString()`: the expected text in double quotes after a fixed phrase. */
  function ToString(c: JsonMatches): (r: string)
    ensures |r| == |Prefix| + |c.value| + 1
    ensures r[..|Prefix|] == Prefix
    ensures r[|Prefix|..|r| - 1] == c.value
    ensures r[|r| - 1] == '"'
  {
    Prefix + c.value + "\""
  }

  /** Different expected texts describe themselves differently. */
  lemma ToStringInjective(c: JsonMatches, d: JsonMatches)
    requires ToString(c) == ToString(d)
    ensures c == d
  {
    assert c.value == ToString(c)[|Prefix|..|ToString(c)| - 1];
  }

  /** `Json::canonicalize`: decode, then sort the members of every object by key. */
  function CanonicalizeText(decode: Decoder, text: string): (r: Result<Json, string>)
    ensures r.Success? <==> decode(text).Success?
    ensures r.Success? ==> r.value == Canonicalize(decode(text).value)
    ensures r.Success? ==> IsCanonical(r.value)
    ensures r.Success? ==> Canonicalize(r.value) == r.value
  {
    match decode(text)
    case Failure(e) => Failure(e)
    case Success(j) =>
      CanonicalizeIsCanonical(j);
      CanonicalizeIdempotent(j);
      Success(Canonicalize(j))
  }

  /** `matches()`: false when either text fails to decode, otherwise the
      structural comparison of the two canonical forms. */
  function Matches(c: JsonMatches, decode: Decoder, other: string): (r: bool)
    ensures r <==>
      && decode(other).Success?
      && decode(c.value).Success?
      && Canonicalize(decode(other).value) == Canonicalize(decode(c.value).value)
  {
    match CanonicalizeText(decode, other)
    case Failure(_) => false
    case Success(recodedOther) =>
      match CanonicalizeText(decode, c.value)
      case Failure(_) => false
      case Success(recodedValue) =>
        Equal(recodedOther, recodedValue)
  }

  /** PHP's `empty()` on a string: the empty string and `"0"`. */
  predicate IsEmptyDescription(description: string)
  {
    description == "" || description == "0"
  }

  const Opening: string := "Failed asserting that "

  /** The sentence `fail()` builds from `failureDescription()`: after a fixed
      opening, the exported other value, a space, the constraint's
      description, and a closing full stop. */
  function FailureSentence(c: JsonMatches, other: string): (m: string)
    ensures |m| == |Opening| + |Exporter.Export(other)| + 1 + |ToString(c)| + 1
    ensures m[..|Opening|] == Opening
    ensures m[|Opening|..|Opening| + |Exporter.Export(other)|] == Exporter.Export(other)
    ensures m[|Opening| + |Exporter.Export(other)|] == ' '
    ensures m[|m| - 1 - |ToString(c)|..|m| - 1] == ToString(c)
    ensures m[|m| - 1] == '.'
  {
    var e, t := Exporter.Export(other), ToString(c);
    SentenceLayout(e, t);
    Opening + e + " " + t + "."
  }

  /** Where each part of a sentence sits, for any exported text and description. */
  lemma SentenceLayout(e: string, t: string)
    ensures var m := Opening + e + " " + t + ".";
      |m| == |Opening| + |e| + 1 + |t| + 1
      && m[..|Opening|] == Opening
      && m[|Opening|..|Opening| + |e|] == e
      && m[|Opening| + |e|] == ' '
      && m[|m| - 1 - |t|..|m| - 1] == t
      && m[|m| - 1] == '.'
  {
  }

  /** The failure text: the sentence, and in front of it, on its own line,
      the caller's description when there is one. */
  function FailureMessage(c: JsonMatches, other: string, description: string): (m: string)
    ensures IsEmptyDescription(description) ==> m == FailureSentence(c, other)
    ensures !IsEmptyDescription(description) ==>
      |m| > |description| && m[..|description|] == description && m[|description|] == '\n'
      && m[|description| + 1..] == FailureSentence(c, other)
  {
    if IsEmptyDescription(description) then FailureSentence(c, other)
    else description + "\n" + FailureSentence(c, other)
  }

  /** `fail()` without a comparison given: when both texts decode, the
      failure carries the comparison of the pretty-printed canonical forms;
      when either does not, it carries none. */
  function Fail(c: JsonMatches, decode: Decoder, other: string, description: string): (f: ExpectationFailed)
    ensures f.message == FailureMessage(c, other, description)
    ensures f.comparisonFailure.Some? <==> decode(other).Success? && decode(c.value).Success?
  {
    var message := FailureMessage(c, other, description);
    match CanonicalizeText(decode, other)
    case Failure(_) => ExpectationFailed(message, None)
    case Success(recodedOther) =>
      match CanonicalizeText(decode, c.value)
      case Failure(_) => ExpectationFailed(message, None)
      case Success(recodedValue) =>
        ExpectationFailed(message, Some(ComparisonFailure(
          decode(c.value).value,
          decode(other).value,
          Pretty.Prettify(recodedValue),
          Pretty.Prettify(recodedOther),
          MismatchMessage)))
  }

  /** `evaluate()`: in result mode the verdict is returned; otherwise a
      match returns nothing and a mismatch raises. */
  function Evaluate(c: JsonMatches, decode: Decoder, other: string, description: string, returnResult: bool): (r: Outcome)
    ensures r.Returned? <==> returnResult
    ensures returnResult ==> r == Returned(Matches(c, decode, other))
    ensures r.Passed? <==> !returnResult && Matches(c, decode, other)
    ensures r.Raised? ==> r.failure.message == FailureMessage(c, other, description)
  {
    var success := Matches(c, decode, other);
    if returnResult then Returned(success)
    else if success then Passed
    else Raised(Fail(c, decode, other, description))
  }

  /** The two modes agree: throwing mode passes exactly when result mode returns true. */
  lemma EvaluateModesAgree(c: JsonMatches, decode: Decoder, other: string, description: string)
    ensures Evaluate(c, decode, other, description, true) == Returned(true)
        <==> Evaluate(c, decode, other, description, false) == Passed
    ensures Evaluate(c, decode, other, description, true) == Returned(false)
        <==> Evaluate(c, decode, other, description, false).Raised?
  {
  }

  /** A text that does not decode, on either side, never matches; in
      throwing mode the failure names the other text and the expected text
      and carries no comparison. */
  lemma SyntaxErrorOutcome(c: JsonMatches, decode: Decoder, other: string, description: string)
    requires decode(other).Failure? || decode(c.value).Failure?
    ensures Evaluate(c, decode, other, description, true) == Returned(false)
    ensures Evaluate(c, decode, other, description, false)
         == Raised(ExpectationFailed(FailureMessage(c, other, description), None))
    ensures description == "" ==> FailureMessage(c, other, description) == FailureSentence(c, other)
  {
  }

  /** Two texts that decode to trees with different canonical forms: result
      mode returns false, and throwing mode raises with a comparison whose
      expected and actual sides are the pretty-printed canonical forms of the
      expected and the other text, under the fixed mismatch message. */
  lemma MismatchOutcome(c: JsonMatches, decode: Decoder, other: string, description: string)
    ensures
      && decode(other).Success? && decode(c.value).Success?
      && Canonicalize(decode(other).value) != Canonicalize(decode(c.value).value)
      ==>
      && Evaluate(c, decode, other, description, true) == Returned(false)
      && Evaluate(c, decode, other, description, false)
         == Raised(ExpectationFailed(
              FailureMessage(c, other, description),
              Some(ComparisonFailure(
                decode(c.value).value,
                decode(other).value,
                Pretty.Prettify(Canonicalize(decode(c.value).value)),
                Pretty.Prettify(Canonicalize(decode(other).value)),
                "Failed asserting that two json values are equal."))))
  {
  }

  /** On decoded texts, matching is exactly the reference equivalence: same
      keys with equivalent values for objects, element-wise equivalence for
      arrays, identical scalars of the same type. */
  lemma MatchesIffEquiv(c: JsonMatches, decode: Decoder, other: string)
    requires decode(other).Success? && decode(c.value).Success?
    requires WellFormed(decode(other).value) && WellFormed(decode(c.value).value)
    ensures Matches(c, decode, other) <==> Equiv(decode(other).value, decode(c.value).value)
  {
    CanonicalizeSameIffEquiv(decode(other).value, decode(c.value).value);
  }

  /** A text that decodes matches itself, whatever its top-level type. */
  lemma MatchesReflexive(c: JsonMatches, decode: Decoder)
    requires decode(c.value).Success?
    ensures Evaluate(c, decode, c.value, "", true) == Returned(true)
    ensures Evaluate(c, decode, c.value, "", false) == Passed
  {
  }
}
