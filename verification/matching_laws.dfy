/** The algebra of `JsonMatches`: which differences between two decoded
    documents it ignores (the order of object members, at any depth) and
    which it never ignores (array order, the type of a value, the presence
    of a key, object versus array). */
module MatchingLaws {
  import opened Wrappers
  import opened JsonValue
  import opened Canonical
  import opened Equivalence
  import opened JsonMatchesConstraint

  /** Both values are of the same JSON type. */
  predicate SameType(a: Json, b: Json)
  {
    match (a, b)
    case (Null, Null) => true
    case (Bool(_), Bool(_)) => true
    case (Number(_), Number(_)) => true
    case (Str(_), Str(_)) => true
    case (Arr(_), Arr(_)) => true
    case (Obj(_), Obj(_)) => true
    case _ => false
  }

  /** Equivalent values are of the same type. */
  lemma EquivSameType(a: Json, b: Json)
    requires Equiv(a, b)
    ensures SameType(a, b)
  {
  }

  /** Matching does not depend on which text is the expected one. */
  lemma MatchesSymmetric(decode: Decoder, a: string, b: string)
    ensures Matches(JsonMatches(a), decode, b) == Matches(JsonMatches(b), decode, a)
  {
  }

  /** Values of different types never match: a string never matches a
      number, boolean or null, and an object never matches an array. */
  lemma DifferentTypesNeverMatch(c: JsonMatches, decode: Decoder, other: string)
    requires decode(other).Success? && decode(c.value).Success?
    requires !SameType(decode(other).value, decode(c.value).value)
    ensures Evaluate(c, decode, other, "", true) == Returned(false)
  {
  }

  /** `{}` never matches `[]`, nor any object any array, in either role. */
  lemma ObjectNeverMatchesArray(decode: Decoder, objectText: string, arrayText: string)
    requires decode(objectText).Success? && decode(objectText).value.Obj?
    requires decode(arrayText).Success? && decode(arrayText).value.Arr?
    ensures Evaluate(JsonMatches(arrayText), decode, objectText, "", true) == Returned(false)
    ensures Evaluate(JsonMatches(objectText), decode, arrayText, "", true) == Returned(false)
  {
    DifferentTypesNeverMatch(JsonMatches(arrayText), decode, objectText);
    DifferentTypesNeverMatch(JsonMatches(objectText), decode, arrayText);
  }

  /** An object and a reordering of its members are equivalent. */
  lemma PermutedMembersEquiv(ms: seq<Member>, ns: seq<Member>)
    requires WellFormed(Obj(ms))
    requires multiset(ms) == multiset(ns)
    ensures Equiv(Obj(ms), Obj(ns))
  {
    forall key | key in KeySet(ms)
      ensures key in KeySet(ns)
    {
      var i :| 0 <= i < |ms| && ms[i].key == key;
      assert ms[i] in multiset(ns);
    }
    forall key | key in KeySet(ns)
      ensures key in KeySet(ms)
    {
      var k :| 0 <= k < |ns| && ns[k].key == key;
      assert ns[k] in multiset(ms);
    }
    forall i, k | 0 <= i < |ms| && 0 <= k < |ns| && ms[i].key == ns[k].key
      ensures Equiv(ms[i].value, ns[k].value)
    {
      assert ns[k] in multiset(ms);
      var j :| 0 <= j < |ms| && ms[j] == ns[k];
      assert j == i;
      EquivReflexive(ms[i].value);
    }
  }

  /** Reordering the members of the decoded object never changes the result. */
  lemma MemberOrderIrrelevant(c: JsonMatches, decode: Decoder, other: string, ms: seq<Member>, ns: seq<Member>)
    requires decode(other) == Success(Obj(ms)) && decode(c.value) == Success(Obj(ns))
    requires WellFormed(Obj(ms)) && WellFormed(Obj(ns))
    requires multiset(ms) == multiset(ns)
    ensures Evaluate(c, decode, other, "", true) == Returned(true)
  {
    PermutedMembersEquiv(ms, ns);
    MatchesIffEquiv(c, decode, other);
  }

  /** Objects with the same keys in the same order whose values are
      equivalent position by position are equivalent. */
  lemma MemberValuesEquiv(ms: seq<Member>, ns: seq<Member>)
    requires DistinctKeys(ms)
    requires |ms| == |ns|
    requires forall i :: 0 <= i < |ms| ==> ms[i].key == ns[i].key && Equiv(ms[i].value, ns[i].value)
    ensures Equiv(Obj(ms), Obj(ns))
  {
    forall key | key in KeySet(ms)
      ensures key in KeySet(ns)
    {
      var i :| 0 <= i < |ms| && ms[i].key == key;
      assert ns[i].key == key;
    }
    forall key | key in KeySet(ns)
      ensures key in KeySet(ms)
    {
      var k :| 0 <= k < |ns| && ns[k].key == key;
      assert ms[k].key == key;
    }
    forall i, k | 0 <= i < |ms| && 0 <= k < |ns| && ms[i].key == ns[k].key
      ensures Equiv(ms[i].value, ns[k].value)
    {
      assert ms[k].key == ns[k].key;
      assert i == k;
    }
  }

  /** Reordering the members of an object nested under any key of a
      well-formed outer object never changes the result. */
  lemma ChildMemberOrderIrrelevant(c: JsonMatches, decode: Decoder, other: string, os: seq<Member>, k: nat, ns: seq<Member>)
    requires decode(other) == Success(Obj(os))
    requires k < |os| && os[k].value.Obj?
    requires decode(c.value) == Success(Obj(os[k := Member(os[k].key, Obj(ns))]))
    requires WellFormed(Obj(os)) && WellFormed(Obj(ns))
    requires multiset(os[k].value.members) == multiset(ns)
    ensures Evaluate(c, decode, other, "", true) == Returned(true)
  {
    var ms := os[k].value.members;
    var ps := os[k := Member(os[k].key, Obj(ns))];
    assert WellFormed(os[k].value);
    PermutedMembersEquiv(ms, ns);
    forall i | 0 <= i < |os|
      ensures os[i].key == ps[i].key && Equiv(os[i].value, ps[i].value)
    {
      if i != k {
        assert WellFormed(os[i].value);
        EquivReflexive(os[i].value);
      }
    }
    MemberValuesEquiv(os, ps);
    assert WellFormed(Obj(ps)) by {
      forall i, j | 0 <= i < j < |ps|
        ensures ps[i].key != ps[j].key
      {
        assert os[i].key != os[j].key;
      }
      forall i | 0 <= i < |ps|
        ensures WellFormed(ps[i].value)
      {
        if i != k {
          assert WellFormed(os[i].value);
        }
      }
    }
    MatchesIffEquiv(c, decode, other);
  }

  /** The case of an outer object with a single key. */
  lemma SingleChildMemberOrderIrrelevant(c: JsonMatches, decode: Decoder, other: string, key: string, ms: seq<Member>, ns: seq<Member>)
    requires decode(other) == Success(Obj([Member(key, Obj(ms))]))
    requires decode(c.value) == Success(Obj([Member(key, Obj(ns))]))
    requires WellFormed(Obj(ms)) && WellFormed(Obj(ns))
    requires multiset(ms) == multiset(ns)
    ensures Evaluate(c, decode, other, "", true) == Returned(true)
  {
    var os := [Member(key, Obj(ms))];
    assert os[0 := Member(os[0].key, Obj(ns))] == [Member(key, Obj(ns))];
    assert WellFormed(Obj(os));
    ChildMemberOrderIrrelevant(c, decode, other, os, 0, ns);
  }

  /** Arrays match exactly when they have the same length and match element
      by element in order. */
  lemma ArraysMatchInOrder(c: JsonMatches, decode: Decoder, other: string, xs: seq<Json>, ys: seq<Json>)
    requires decode(other) == Success(Arr(xs)) && decode(c.value) == Success(Arr(ys))
    requires WellFormed(Arr(xs)) && WellFormed(Arr(ys))
    ensures Matches(c, decode, other) <==> |xs| == |ys| && forall i :: 0 <= i < |xs| ==> Equiv(xs[i], ys[i])
  {
    MatchesIffEquiv(c, decode, other);
  }

  /** Swapping two elements that do not match each other breaks the match:
      `["first", "second"]` does not match `["second", "first"]`. */
  lemma SwappedElementsDiffer(c: JsonMatches, decode: Decoder, other: string, x: Json, y: Json)
    requires decode(other) == Success(Arr([x, y])) && decode(c.value) == Success(Arr([y, x]))
    requires WellFormed(x) && WellFormed(y)
    requires !Equiv(x, y)
    ensures Evaluate(c, decode, other, "", true) == Returned(false)
  {
    assert WellFormed(Arr([x, y])) && WellFormed(Arr([y, x]));
    ArraysMatchInOrder(c, decode, other, [x, y], [y, x]);
    assert [x, y][0] == x && [y, x][0] == y;
  }

  /** A key present on one side only breaks the match, whatever its value,
      `null` included. */
  lemma KeyPresenceMatters(c: JsonMatches, decode: Decoder, other: string, ms: seq<Member>, ns: seq<Member>, key: string)
    requires decode(other) == Success(Obj(ms)) && decode(c.value) == Success(Obj(ns))
    requires WellFormed(Obj(ms)) && WellFormed(Obj(ns))
    requires (key in KeySet(ms)) != (key in KeySet(ns))
    ensures Evaluate(c, decode, other, "", true) == Returned(false)
  {
    MatchesIffEquiv(c, decode, other);
  }

  /** A member whose value has a different type on each side breaks the
      match: `{"age": "5"}` does not match `{"age": 5}`. */
  lemma MemberTypeMatters(c: JsonMatches, decode: Decoder, other: string, ms: seq<Member>, ns: seq<Member>, i: nat, k: nat)
    requires decode(other) == Success(Obj(ms)) && decode(c.value) == Success(Obj(ns))
    requires WellFormed(Obj(ms)) && WellFormed(Obj(ns))
    requires i < |ms| && k < |ns| && ms[i].key == ns[k].key
    requires !SameType(ms[i].value, ns[k].value)
    ensures Evaluate(c, decode, other, "", true) == Returned(false)
  {
    MatchesIffEquiv(c, decode, other);
    if Equiv(Obj(ms), Obj(ns)) {
      EquivSameType(ms[i].value, ns[k].value);
    }
  }
}
