/** The concrete failures of the constraint's tests: the message of a
    syntax error, and the pretty-printed canonical forms a mismatch carries. */
module FailureCases {
  import opened Wrappers
  import opened JsonValue
  import opened Canonical
  import KeyOrder
  import opened Equivalence
  import opened JsonMatchesConstraint
  import opened MatchCases
  import Pretty
  import Exporter

  /** A printable one-line text without `<` is exported between single quotes. */
  lemma ExportQuoted(s: string)
    requires forall i :: 0 <= i < |s| ==> s[i] != '\r' && s[i] != '\n' && s[i] != '<' && s[i] as int >= 0x20
    ensures Exporter.Export(s) == "'" + s + "'"
  {
    Exporter.AbsentFirstChar(s, "\r");
    Exporter.AbsentFirstChar(s, "\n");
    Exporter.AbsentFirstChar(s, "<lf>");
    Exporter.ExportPlain(s);
  }

  /** The broken text is printable and on one line. */
  lemma InvalidIsPlain()
    ensures forall i :: 0 <= i < |Invalid| ==>
      Invalid[i] != '\r' && Invalid[i] != '\n' && Invalid[i] != '<' && Invalid[i] as int >= 0x20
  {
  }

  lemma QuotedInvalid()
    ensures "'" + Invalid + "'" == "'{\"Mascott\"::}'"
  {
  }

  /** The broken text is exported between single quotes. */
  lemma ExportInvalid()
    ensures Exporter.Export(Invalid) == "'{\"Mascott\"::}'"
  {
    InvalidIsPlain();
    ExportQuoted(Invalid);
    QuotedInvalid();
  }

  /** The constraint built on the broken text describes itself with it. */
  lemma ToStringInvalid()
    ensures ToString(JsonMatches(Invalid)) == "matches JSON string \"{\"Mascott\"::}\""
  {
  }

  /** 'fail error with invalid value and other': both texts are the broken
      one; the message quotes it twice and no comparison is attached. */
  lemma FailErrorWithInvalidValueAndOther(decode: Decoder)
    requires decode(Invalid).Failure?
    ensures Evaluate(JsonMatches(Invalid), decode, Invalid, "", false)
         == Raised(ExpectationFailed(
              "Failed asserting that " + "'{\"Mascott\"::}'" + " " + "matches JSON string \"{\"Mascott\"::}\"" + ".",
              None))
  {
    SyntaxErrorOutcome(JsonMatches(Invalid), decode, Invalid, "");
    ExportInvalid();
    ToStringInvalid();
  }

  lemma MascottTuxIsPlain()
    ensures forall i :: 0 <= i < |MascottTux| ==>
      MascottTux[i] != '\r' && MascottTux[i] != '\n' && MascottTux[i] != '<' && MascottTux[i] as int >= 0x20
  {
  }

  lemma QuotedMascottTux()
    ensures "'" + MascottTux + "'" == "'{\"Mascott\":\"Tux\"}'"
  {
  }

  /** The valid text is exported between single quotes. */
  lemma ExportMascottTux()
    ensures Exporter.Export(MascottTux) == "'{\"Mascott\":\"Tux\"}'"
  {
    MascottTuxIsPlain();
    ExportQuoted(MascottTux);
    QuotedMascottTux();
  }

  /** 'fail error with valid value and invalid other': the expected text is
      broken, so the valid other text is not even compared. */
  lemma FailErrorWithValidValueAndInvalidOther(decode: Decoder)
    requires decode(Invalid).Failure?
    requires decode(MascottTux).Success?
    ensures Evaluate(JsonMatches(Invalid), decode, MascottTux, "", false)
         == Raised(ExpectationFailed(
              "Failed asserting that " + "'{\"Mascott\":\"Tux\"}'" + " " + "matches JSON string \"{\"Mascott\"::}\"" + ".",
              None))
  {
    SyntaxErrorOutcome(JsonMatches(Invalid), decode, MascottTux, "");
    ExportMascottTux();
    ToStringInvalid();
  }

  const ObjValOneText: string := "{\"obj\": {}, \"val\": 1}"
  const ObjValTwoText: string := "{\"obj\": {}, \"val\": 2}"
  const ObjValOne: Json := Obj([Member("obj", Obj([])), Member("val", Number("1"))])
  const ObjValTwo: Json := Obj([Member("obj", Obj([])), Member("val", Number("2"))])

  /** Canonicalizing the values of two members keeps them in place. */
  lemma CanonicalizeValuesPair(m1: Member, m2: Member)
    ensures CanonicalizeValues([m1, m2])
         == [Member(m1.key, Canonicalize(m1.value)), Member(m2.key, Canonicalize(m2.value))]
  {
    CanonicalizeValuesAt([m1, m2], 0);
    CanonicalizeValuesAt([m1, m2], 1);
  }

  /** Two members with different keys form an object with distinct keys. */
  lemma PairDistinct(m1: Member, m2: Member)
    requires m1.key != m2.key
    ensures Canonicalize(Obj([m1, m2])) == Obj(SortMembers(CanonicalizeValues([m1, m2])))
  {
    assert DistinctKeys([m1, m2]);
    CanonicalMembers([m1, m2]);
  }

  /** Sorting two members whose keys are in order keeps them. */
  lemma SortedKeep(a: Member, b: Member)
    requires KeyOrder.Less(a.key, b.key)
    ensures SortMembers([a, b]) == [a, b]
  {
    assert SortedByKey([a, b]);
    SortMembersOfSorted([a, b]);
  }

  /** Sorting two members whose keys are out of order swaps them. */
  lemma SortedSwap(a: Member, b: Member)
    requires KeyOrder.Less(a.key, b.key)
    ensures SortMembers([b, a]) == [a, b]
  {
    KeyOrder.LessAsymmetric(a.key, b.key);
    KeyOrder.LessIrreflexive(a.key);
    assert [b, a][1..] == [a];
    assert SortMembers([a]) == [a];
    assert Insert(b, [a]) == [a] + Insert(b, []);
  }

  /** An object of two members whose keys are in order canonicalizes to
      the same two members with their values canonicalized. */
  lemma OrderedPairCanonicalize(k1: string, v1: Json, k2: string, v2: Json)
    requires KeyOrder.Less(k1, k2)
    ensures Canonicalize(Obj([Member(k1, v1), Member(k2, v2)]))
         == Obj([Member(k1, Canonicalize(v1)), Member(k2, Canonicalize(v2))])
  {
    KeyOrder.LessIrreflexive(k1);
    PairDistinct(Member(k1, v1), Member(k2, v2));
    CanonicalizeValuesPair(Member(k1, v1), Member(k2, v2));
    SortedKeep(Member(k1, Canonicalize(v1)), Member(k2, Canonicalize(v2)));
  }

  /** The same object with its two members the other way round
      canonicalizes to the same tree. */
  lemma SwappedPairCanonicalize(k1: string, v1: Json, k2: string, v2: Json)
    requires KeyOrder.Less(k1, k2)
    ensures Canonicalize(Obj([Member(k2, v2), Member(k1, v1)]))
         == Obj([Member(k1, Canonicalize(v1)), Member(k2, Canonicalize(v2))])
  {
    KeyOrder.LessIrreflexive(k1);
    PairDistinct(Member(k2, v2), Member(k1, v1));
    CanonicalizeValuesPair(Member(k2, v2), Member(k1, v1));
    SortedSwap(Member(k1, Canonicalize(v1)), Member(k2, Canonicalize(v2)));
  }

  /** 'empty object not converted to array in diff': the comparison shows
      the decoded trees, whose empty object member stays an object and is
      printed `{}`. */
  lemma EmptyObjectNotConvertedToArrayInDiff(decode: Decoder)
    requires decode(ObjValOneText) == Success(ObjValOne)
    requires decode(ObjValTwoText) == Success(ObjValTwo)
    ensures Evaluate(JsonMatches(ObjValOneText), decode, ObjValTwoText, "", false)
         == Raised(ExpectationFailed(
              FailureMessage(JsonMatches(ObjValOneText), ObjValTwoText, ""),
              Some(ComparisonFailure(ObjValOne, ObjValTwo, Pretty.Prettify(ObjValOne), Pretty.Prettify(ObjValTwo), MismatchMessage))))
    ensures Pretty.Render(ObjValOne.members[0].value, 1) == "{}"
  {
    assert KeyOrder.Less("obj", "val");
    OrderedPairCanonicalize("obj", Obj([]), "val", Number("1"));
    OrderedPairCanonicalize("obj", Obj([]), "val", Number("2"));
    MismatchOutcome(JsonMatches(ObjValOneText), decode, ObjValTwoText, "");
  }

  const X1: Member := Member("x", Number("1"))
  const Y2: Member := Member("y", Number("2"))
  const XYOneText: string := "{\"obj\": {\"x\": 1, \"y\": 2}, \"val\": 1}"
  const YXTwoText: string := "{\"obj\": {\"y\": 2, \"x\": 1}, \"val\": 2}"
  const XYOne: Json := Obj([Member("obj", Obj([X1, Y2])), Member("val", Number("1"))])
  const YXTwo: Json := Obj([Member("obj", Obj([Y2, X1])), Member("val", Number("2"))])
  const XYTwo: Json := Obj([Member("obj", Obj([X1, Y2])), Member("val", Number("2"))])

  /** 'objects are canonicalized in diff': the comparison's actual side is
      the other tree with its nested members sorted, so `x` is printed
      before `y` on both sides. */
  lemma ObjectsAreCanonicalizedInDiff(decode: Decoder)
    requires decode(XYOneText) == Success(XYOne)
    requires decode(YXTwoText) == Success(YXTwo)
    ensures Evaluate(JsonMatches(XYOneText), decode, YXTwoText, "", false)
         == Raised(ExpectationFailed(
              FailureMessage(JsonMatches(XYOneText), YXTwoText, ""),
              Some(ComparisonFailure(XYOne, YXTwo, Pretty.Prettify(XYOne), Pretty.Prettify(XYTwo), MismatchMessage))))
  {
    assert KeyOrder.Less("obj", "val") && KeyOrder.Less("x", "y");
    OrderedPairCanonicalize("x", Number("1"), "y", Number("2"));
    SwappedPairCanonicalize("x", Number("1"), "y", Number("2"));
    OrderedPairCanonicalize("obj", Obj([X1, Y2]), "val", Number("1"));
    OrderedPairCanonicalize("obj", Obj([Y2, X1]), "val", Number("2"));
    MismatchOutcome(JsonMatches(XYOneText), decode, YXTwoText, "");
  }
}
