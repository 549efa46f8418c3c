/** The concrete documents of the constraint's data-provider tables and
    failure tests. Each lemma takes any decoder that reads the texts involved
    as a JSON decoder does (the trees are written out) and states the outcome
    the tests expect. */
module MatchCases {
  import opened Wrappers
  import opened JsonValue
  import opened Canonical
  import opened JsonMatchesConstraint
  import opened MatchingLaws
  import Pretty
  import Exporter

  const MascottTux: string := "{\"Mascott\":\"Tux\"}"
  const MascottTuxTree: Json := Obj([Member("Mascott", Str("Tux"))])
  const Invalid: string := "{\"Mascott\"::}"

  /** 'valid JSON': the same object text matches itself. */
  lemma ValidJson(decode: Decoder)
    requires decode(MascottTux) == Success(MascottTuxTree)
    ensures Evaluate(JsonMatches(MascottTux), decode, MascottTux, "", true) == Returned(true)
  {
    MatchesReflexive(JsonMatches(MascottTux), decode);
  }

  /** 'error syntax' and 'invalid JSON in class instantiation': a syntax
      error on either side gives false. */
  lemma ErrorSyntax(decode: Decoder)
    requires decode(MascottTux) == Success(MascottTuxTree)
    requires decode(Invalid).Failure?
    ensures Evaluate(JsonMatches(MascottTux), decode, Invalid, "", true) == Returned(false)
    ensures Evaluate(JsonMatches(Invalid), decode, MascottTux, "", true) == Returned(false)
  {
    SyntaxErrorOutcome(JsonMatches(MascottTux), decode, Invalid, "");
    SyntaxErrorOutcome(JsonMatches(Invalid), decode, MascottTux, "");
  }

  /** 'error UTF-8': the encoded string `"\\xB1\\x31"` is a string, not an object. */
  lemma ErrorUtf8(decode: Decoder)
    requires decode(MascottTux) == Success(MascottTuxTree)
    requires decode("\"\\\\xB1\\\\x31\"") == Success(Str("\\xB1\\x31"))
    ensures Evaluate(JsonMatches(MascottTux), decode, "\"\\\\xB1\\\\x31\"", "", true) == Returned(false)
    ensures Evaluate(JsonMatches(MascottTux), decode, "\"\\\\xB1\\\\x31\"", "", false)
         == Raised(ExpectationFailed(
              FailureMessage(JsonMatches(MascottTux), "\"\\\\xB1\\\\x31\"", ""),
              Some(ComparisonFailure(
                MascottTuxTree,
                Str("\\xB1\\x31"),
                Pretty.Prettify(Canonicalize(MascottTuxTree)),
                Pretty.Prettify(Canonicalize(Str("\\xB1\\x31"))),
                MismatchMessage))))
  {
    DifferentTypesNeverMatch(JsonMatches(MascottTux), decode, "\"\\\\xB1\\\\x31\"");
    MismatchOutcome(JsonMatches(MascottTux), decode, "\"\\\\xB1\\\\x31\"", "");
  }

  /** 'string type not equals number'. */
  lemma StringTypeNotEqualsNumber(decode: Decoder)
    requires decode("{\"age\": \"5\"}") == Success(Obj([Member("age", Str("5"))]))
    requires decode("{\"age\": 5}") == Success(Obj([Member("age", Number("5"))]))
    ensures Evaluate(JsonMatches("{\"age\": 5}"), decode, "{\"age\": \"5\"}", "", true) == Returned(false)
    ensures Evaluate(JsonMatches("{\"age\": 5}"), decode, "{\"age\": \"5\"}", "", false)
         == Raised(ExpectationFailed(
              FailureMessage(JsonMatches("{\"age\": 5}"), "{\"age\": \"5\"}", ""),
              Some(ComparisonFailure(
                Obj([Member("age", Number("5"))]),
                Obj([Member("age", Str("5"))]),
                Pretty.Prettify(Canonicalize(Obj([Member("age", Number("5"))]))),
                Pretty.Prettify(Canonicalize(Obj([Member("age", Str("5"))]))),
                MismatchMessage))))
  {
    MemberTypeMatters(JsonMatches("{\"age\": 5}"), decode, "{\"age\": \"5\"}",
      [Member("age", Str("5"))], [Member("age", Number("5"))], 0, 0);
    MismatchOutcome(JsonMatches("{\"age\": 5}"), decode, "{\"age\": \"5\"}", "");
  }

  /** 'string type not equals boolean'. */
  lemma StringTypeNotEqualsBoolean(decode: Decoder)
    requires decode("{\"age\": \"true\"}") == Success(Obj([Member("age", Str("true"))]))
    requires decode("{\"age\": true}") == Success(Obj([Member("age", Bool(true))]))
    ensures Evaluate(JsonMatches("{\"age\": true}"), decode, "{\"age\": \"true\"}", "", true) == Returned(false)
    ensures Evaluate(JsonMatches("{\"age\": true}"), decode, "{\"age\": \"true\"}", "", false)
         == Raised(ExpectationFailed(
              FailureMessage(JsonMatches("{\"age\": true}"), "{\"age\": \"true\"}", ""),
              Some(ComparisonFailure(
                Obj([Member("age", Bool(true))]),
                Obj([Member("age", Str("true"))]),
                Pretty.Prettify(Canonicalize(Obj([Member("age", Bool(true))]))),
                Pretty.Prettify(Canonicalize(Obj([Member("age", Str("true"))]))),
                MismatchMessage))))
  {
    MemberTypeMatters(JsonMatches("{\"age\": true}"), decode, "{\"age\": \"true\"}",
      [Member("age", Str("true"))], [Member("age", Bool(true))], 0, 0);
    MismatchOutcome(JsonMatches("{\"age\": true}"), decode, "{\"age\": \"true\"}", "");
  }

  /** 'string type not equals null'. */
  lemma StringTypeNotEqualsNull(decode: Decoder)
    requires decode("{\"age\": \"null\"}") == Success(Obj([Member("age", Str("null"))]))
    requires decode("{\"age\": null}") == Success(Obj([Member("age", Null)]))
    ensures Evaluate(JsonMatches("{\"age\": null}"), decode, "{\"age\": \"null\"}", "", true) == Returned(false)
    ensures Evaluate(JsonMatches("{\"age\": null}"), decode, "{\"age\": \"null\"}", "", false)
         == Raised(ExpectationFailed(
              FailureMessage(JsonMatches("{\"age\": null}"), "{\"age\": \"null\"}", ""),
              Some(ComparisonFailure(
                Obj([Member("age", Null)]),
                Obj([Member("age", Str("null"))]),
                Pretty.Prettify(Canonicalize(Obj([Member("age", Null)]))),
                Pretty.Prettify(Canonicalize(Obj([Member("age", Str("null"))]))),
                MismatchMessage))))
  {
    MemberTypeMatters(JsonMatches("{\"age\": null}"), decode, "{\"age\": \"null\"}",
      [Member("age", Str("null"))], [Member("age", Null)], 0, 0);
    MismatchOutcome(JsonMatches("{\"age\": null}"), decode, "{\"age\": \"null\"}", "");
  }

  /** Two members with different keys, in either order, form the same
      well-formed object up to member order. */
  lemma SwappedPair(a: Member, b: Member)
    requires a.key != b.key && WellFormed(a.value) && WellFormed(b.value)
    ensures multiset([a, b]) == multiset([b, a])
    ensures WellFormed(Obj([a, b])) && WellFormed(Obj([b, a]))
  {
    assert [a, b] == [a] + [b] && [b, a] == [b] + [a];
  }

  /** 'object fields are unordered'. */
  lemma ObjectFieldsAreUnordered(decode: Decoder)
    requires decode("{\"first\":1, \"second\":\"2\"}")
          == Success(Obj([Member("first", Number("1")), Member("second", Str("2"))]))
    requires decode("{\"second\":\"2\", \"first\":1}")
          == Success(Obj([Member("second", Str("2")), Member("first", Number("1"))]))
    ensures Evaluate(JsonMatches("{\"second\":\"2\", \"first\":1}"), decode, "{\"first\":1, \"second\":\"2\"}", "", true)
         == Returned(true)
  {
    SwappedPair(Member("first", Number("1")), Member("second", Str("2")));
    MemberOrderIrrelevant(JsonMatches("{\"second\":\"2\", \"first\":1}"), decode, "{\"first\":1, \"second\":\"2\"}",
      [Member("first", Number("1")), Member("second", Str("2"))], [Member("second", Str("2")), Member("first", Number("1"))]);
  }

  /** 'child object fields are unordered'. */
  lemma ChildObjectFieldsAreUnordered(decode: Decoder)
    requires decode("{\"Mascott\": {\"name\":\"Tux\", \"age\":5}}")
          == Success(Obj([Member("Mascott", Obj([Member("name", Str("Tux")), Member("age", Number("5"))]))]))
    requires decode("{\"Mascott\": {\"age\":5, \"name\":\"Tux\"}}")
          == Success(Obj([Member("Mascott", Obj([Member("age", Number("5")), Member("name", Str("Tux"))]))]))
    ensures Evaluate(JsonMatches("{\"Mascott\": {\"age\":5, \"name\":\"Tux\"}}"), decode,
                     "{\"Mascott\": {\"name\":\"Tux\", \"age\":5}}", "", true)
         == Returned(true)
  {
    SwappedPair(Member("name", Str("Tux")), Member("age", Number("5")));
    SingleChildMemberOrderIrrelevant(JsonMatches("{\"Mascott\": {\"age\":5, \"name\":\"Tux\"}}"), decode,
      "{\"Mascott\": {\"name\":\"Tux\", \"age\":5}}", "Mascott",
      [Member("name", Str("Tux")), Member("age", Number("5"))], [Member("age", Number("5")), Member("name", Str("Tux"))]);
  }

  const PresentTrue: Member := Member("present", Bool(true))
  const MissingNull: Member := Member("missing", Null)

  /** A `null` member one side lacks breaks the match, wherever it stands. */
  lemma MissingMemberBreaksMatch(decode: Decoder, other: string, ms: seq<Member>)
    requires ms == [PresentTrue, MissingNull] || ms == [MissingNull, PresentTrue]
    requires decode(other) == Success(Obj(ms))
    requires decode("{\"present\": true}") == Success(Obj([PresentTrue]))
    ensures Evaluate(JsonMatches("{\"present\": true}"), decode, other, "", true) == Returned(false)
  {
    assert "missing" != "present";
    assert MissingNull in ms;
    assert "missing" in Equivalence.KeySet(ms);
    assert "missing" !in Equivalence.KeySet([PresentTrue]);
    KeyPresenceMatters(JsonMatches("{\"present\": true}"), decode, other, ms, [PresentTrue], "missing");
  }

  /** 'null field different from missing field', as the result-mode table has it. */
  lemma NullFieldDifferentFromMissingField(decode: Decoder)
    requires decode("{\"present\": true, \"missing\": null}") == Success(Obj([PresentTrue, MissingNull]))
    requires decode("{\"present\": true}") == Success(Obj([PresentTrue]))
    ensures Evaluate(JsonMatches("{\"present\": true}"), decode, "{\"present\": true, \"missing\": null}", "", true)
         == Returned(false)
  {
    MissingMemberBreaksMatch(decode, "{\"present\": true, \"missing\": null}", [PresentTrue, MissingNull]);
  }

  /** 'null field different from missing field', as the throwing-mode table has it. */
  lemma NullFieldFirstDifferentFromMissingField(decode: Decoder)
    requires decode("{\"missing\": null, \"present\": true}") == Success(Obj([MissingNull, PresentTrue]))
    requires decode("{\"present\": true}") == Success(Obj([PresentTrue]))
    ensures Evaluate(JsonMatches("{\"present\": true}"), decode, "{\"missing\": null, \"present\": true}", "", true)
         == Returned(false)
    ensures Evaluate(JsonMatches("{\"present\": true}"), decode, "{\"missing\": null, \"present\": true}", "", false)
         == Raised(ExpectationFailed(
              FailureMessage(JsonMatches("{\"present\": true}"), "{\"missing\": null, \"present\": true}", ""),
              Some(ComparisonFailure(
                Obj([PresentTrue]),
                Obj([MissingNull, PresentTrue]),
                Pretty.Prettify(Canonicalize(Obj([PresentTrue]))),
                Pretty.Prettify(Canonicalize(Obj([MissingNull, PresentTrue]))),
                MismatchMessage))))
  {
    MissingMemberBreaksMatch(decode, "{\"missing\": null, \"present\": true}", [MissingNull, PresentTrue]);
    MismatchOutcome(JsonMatches("{\"present\": true}"), decode, "{\"missing\": null, \"present\": true}", "");
  }

  /** 'array elements are ordered'. */
  lemma ArrayElementsAreOrdered(decode: Decoder)
    requires decode("[\"first\", \"second\"]") == Success(Arr([Str("first"), Str("second")]))
    requires decode("[\"second\", \"first\"]") == Success(Arr([Str("second"), Str("first")]))
    ensures Evaluate(JsonMatches("[\"second\", \"first\"]"), decode, "[\"first\", \"second\"]", "", true) == Returned(false)
    ensures Evaluate(JsonMatches("[\"second\", \"first\"]"), decode, "[\"first\", \"second\"]", "", false)
         == Raised(ExpectationFailed(
              FailureMessage(JsonMatches("[\"second\", \"first\"]"), "[\"first\", \"second\"]", ""),
              Some(ComparisonFailure(
                Arr([Str("second"), Str("first")]),
                Arr([Str("first"), Str("second")]),
                Pretty.Prettify(Canonicalize(Arr([Str("second"), Str("first")]))),
                Pretty.Prettify(Canonicalize(Arr([Str("first"), Str("second")]))),
                MismatchMessage))))
  {
    SwappedElementsDiffer(JsonMatches("[\"second\", \"first\"]"), decode, "[\"first\", \"second\"]", Str("first"), Str("second"));
    MismatchOutcome(JsonMatches("[\"second\", \"first\"]"), decode, "[\"first\", \"second\"]", "");
  }

  /** 'single boolean valid json', 'single number valid json', 'single null valid json'. */
  lemma SingleScalars(decode: Decoder)
    requires decode("true") == Success(Bool(true))
    requires decode("5.3") == Success(Number("5.3"))
    requires decode("null") == Success(Null)
    ensures Evaluate(JsonMatches("true"), decode, "true", "", true) == Returned(true)
    ensures Evaluate(JsonMatches("5.3"), decode, "5.3", "", true) == Returned(true)
    ensures Evaluate(JsonMatches("null"), decode, "null", "", true) == Returned(true)
  {
    MatchesReflexive(JsonMatches("true"), decode);
    MatchesReflexive(JsonMatches("5.3"), decode);
    MatchesReflexive(JsonMatches("null"), decode);
  }

  /** 'objects are not arrays': `{}` does not match `[]`. */
  lemma ObjectsAreNotArrays(decode: Decoder)
    requires decode("{}") == Success(Obj([]))
    requires decode("[]") == Success(Arr([]))
    ensures Evaluate(JsonMatches("[]"), decode, "{}", "", true) == Returned(false)
  {
    ObjectNeverMatchesArray(decode, "{}", "[]");
  }
}
