/** When two decoded JSON values count as the same document: object member
    order is irrelevant, array element order is significant, and scalar types
    never coerce into one another. */
module Equivalence {
  import opened JsonValue
  import KeyOrder
  import opened Canonical

  /** The set of keys an object has. */
  function KeySet(ms: seq<Member>): (ks: set<string>)
    ensures forall i :: 0 <= i < |ms| ==> ms[i].key in ks
    ensures forall k :: k in ks ==> exists i :: 0 <= i < |ms| && ms[i].key == k
  {
    set i | 0 <= i < |ms| :: ms[i].key
  }

  /** Reference definition of semantic equality, stated without sorting:
      objects agree when they have the same keys and agree on every key's
      value; arrays agree element by element in order; scalars agree only
      with an identical scalar of the same type. */
  predicate Equiv(a: Json, b: Json)
    decreases a
  {
    match a
    case Arr(xs) =>
      && b.Arr?
      && |xs| == |b.items|
      && forall i :: 0 <= i < |xs| ==> Equiv(xs[i], b.items[i])
    case Obj(ms) =>
      && b.Obj?
      && KeySet(ms) == KeySet(b.members)
      && forall i, k :: 0 <= i < |ms| && 0 <= k < |b.members| && ms[i].key == b.members[k].key ==>
           Equiv(ms[i].value, b.members[k].value)
    case _ => a == b
  }

  /** The structural comparison of two canonical trees: same variant at every
      node, identical scalars, and position-by-position equal children. It
      holds exactly when the trees are identical, so no value of one type
      ever equals a value of another. */
  function Equal(a: Json, b: Json): (r: bool)
    ensures r <==> a == b
    decreases a
  {
    match (a, b)
    case (Null, Null) => true
    case (Bool(x), Bool(y)) => x == y
    case (Number(x), Number(y)) => x == y
    case (Str(x), Str(y)) => x == y
    case (Arr(xs), Arr(ys)) =>
      var same := |xs| == |ys| && forall i :: 0 <= i < |xs| ==> Equal(xs[i], ys[i]);
      assert same ==> xs == ys by {
        if same {
          assert forall i :: 0 <= i < |xs| ==> xs[i] == ys[i];
        }
      }
      same
    case (Obj(ms), Obj(ns)) =>
      var same :=
        && |ms| == |ns|
        && forall i :: 0 <= i < |ms| ==> ms[i].key == ns[i].key && Equal(ms[i].value, ns[i].value);
      assert same ==> ms == ns by {
        if same {
          assert forall i :: 0 <= i < |ms| ==> ms[i] == ns[i];
        }
      }
      same
    case _ => false
  }

  /** The canonical member list of a decoded object with distinct keys has
      strictly increasing keys and holds exactly the canonicalized members. */
  lemma CanonicalMembers(ms: seq<Member>)
    requires DistinctKeys(ms)
    ensures Canonicalize(Obj(ms)) == Obj(SortMembers(CanonicalizeValues(ms)))
    ensures StrictlySortedByKey(SortMembers(CanonicalizeValues(ms)))
    ensures forall x :: x in SortMembers(CanonicalizeValues(ms)) <==> x in CanonicalizeValues(ms)
  {
    var cv := CanonicalizeValues(ms);
    assert Keys(cv) == Keys(ms);
    assert DistinctKeys(cv) by {
      forall i, j | 0 <= i < j < |cv|
        ensures cv[i].key != cv[j].key
      {
        assert cv[i].key == Keys(cv)[i] == ms[i].key;
        assert cv[j].key == Keys(cv)[j] == ms[j].key;
      }
    }
    SortMembersStrict(cv);
    SortMembersSameElements(cv);
  }

  /** The canonicalized member at position `i` keeps the key and canonicalizes the value. */
  lemma CanonicalizeValuesAt(ms: seq<Member>, i: int)
    requires 0 <= i < |ms|
    ensures |CanonicalizeValues(ms)| == |ms|
    ensures CanonicalizeValues(ms)[i] == Member(ms[i].key, Canonicalize(ms[i].value))
  {
  }

  /** Every canonicalized member of `ms` is one of `ns` when the keys of `ms`
      are keys of `ns` and the values agree key by key after canonicalization. */
  lemma CanonicalMembersIncluded(ms: seq<Member>, ns: seq<Member>)
    requires KeySet(ms) <= KeySet(ns)
    requires forall i, k :: 0 <= i < |ms| && 0 <= k < |ns| && ms[i].key == ns[k].key ==>
               Canonicalize(ms[i].value) == Canonicalize(ns[k].value)
    ensures forall x :: x in CanonicalizeValues(ms) ==> x in CanonicalizeValues(ns)
  {
    var ca := CanonicalizeValues(ms);
    var cb := CanonicalizeValues(ns);
    forall x | x in ca
      ensures x in cb
    {
      var i :| 0 <= i < |ca| && ca[i] == x;
      CanonicalizeValuesAt(ms, i);
      assert ms[i].key in KeySet(ns);
      var k :| 0 <= k < |ns| && ns[k].key == ms[i].key;
      CanonicalizeValuesAt(ns, k);
      assert cb[k] == x;
    }
  }

  /** Objects whose keys agree and whose values agree key by key after
      canonicalization have the same canonical form. */
  lemma ObjectsCanonicalizeSame(ms: seq<Member>, ns: seq<Member>)
    requires DistinctKeys(ms) && DistinctKeys(ns)
    requires KeySet(ms) == KeySet(ns)
    requires forall i, k :: 0 <= i < |ms| && 0 <= k < |ns| && ms[i].key == ns[k].key ==>
               Canonicalize(ms[i].value) == Canonicalize(ns[k].value)
    ensures Canonicalize(Obj(ms)) == Canonicalize(Obj(ns))
  {
    CanonicalMembers(ms);
    CanonicalMembers(ns);
    CanonicalMembersIncluded(ms, ns);
    CanonicalMembersIncluded(ns, ms);
    StrictlySortedUnique(SortMembers(CanonicalizeValues(ms)), SortMembers(CanonicalizeValues(ns)));
  }

  /** When the canonicalized members of `ms` are among those of `ns`, every key of `ms` is a key of `ns`. */
  lemma KeysFromCanonicalMembers(ms: seq<Member>, ns: seq<Member>)
    requires forall x :: x in CanonicalizeValues(ms) ==> x in CanonicalizeValues(ns)
    ensures KeySet(ms) <= KeySet(ns)
  {
    var ca := CanonicalizeValues(ms);
    var cb := CanonicalizeValues(ns);
    forall key | key in KeySet(ms)
      ensures key in KeySet(ns)
    {
      var i :| 0 <= i < |ms| && ms[i].key == key;
      CanonicalizeValuesAt(ms, i);
      assert ca[i] in cb;
      var k :| 0 <= k < |cb| && cb[k] == ca[i];
      CanonicalizeValuesAt(ns, k);
    }
  }

  /** When the canonicalized members of `ms` are among those of `ns` and the
      keys of `ns` are distinct, members with the same key agree after canonicalization. */
  lemma ValuesFromCanonicalMembers(ms: seq<Member>, ns: seq<Member>)
    requires DistinctKeys(ns)
    requires forall x :: x in CanonicalizeValues(ms) ==> x in CanonicalizeValues(ns)
    ensures forall i, k :: 0 <= i < |ms| && 0 <= k < |ns| && ms[i].key == ns[k].key ==>
              Canonicalize(ms[i].value) == Canonicalize(ns[k].value)
  {
    var ca := CanonicalizeValues(ms);
    var cb := CanonicalizeValues(ns);
    forall i, k | 0 <= i < |ms| && 0 <= k < |ns| && ms[i].key == ns[k].key
      ensures Canonicalize(ms[i].value) == Canonicalize(ns[k].value)
    {
      CanonicalizeValuesAt(ms, i);
      assert ca[i] in cb;
      var k' :| 0 <= k' < |cb| && cb[k'] == ca[i];
      CanonicalizeValuesAt(ns, k');
      assert ns[k'].key == ns[k].key;
      assert k' == k;
    }
  }

  /** Objects with the same canonical form have the same keys, and agree key
      by key after canonicalization. */
  lemma ObjectsCanonicalizeSameConverse(ms: seq<Member>, ns: seq<Member>)
    requires DistinctKeys(ms) && DistinctKeys(ns)
    requires Canonicalize(Obj(ms)) == Canonicalize(Obj(ns))
    ensures KeySet(ms) == KeySet(ns)
    ensures forall i, k :: 0 <= i < |ms| && 0 <= k < |ns| && ms[i].key == ns[k].key ==>
              Canonicalize(ms[i].value) == Canonicalize(ns[k].value)
  {
    CanonicalMembers(ms);
    CanonicalMembers(ns);
    assert SortMembers(CanonicalizeValues(ms)) == SortMembers(CanonicalizeValues(ns));
    KeysFromCanonicalMembers(ms, ns);
    KeysFromCanonicalMembers(ns, ms);
    ValuesFromCanonicalMembers(ms, ns);
  }

  /** Equivalent values have the same canonical form. */
  lemma {:induction false} EquivCanonicalizeSame(a: Json, b: Json)
    requires WellFormed(a) && WellFormed(b)
    requires Equiv(a, b)
    ensures Canonicalize(a) == Canonicalize(b)
    decreases a
  {
    match a
    case Arr(xs) =>
      var ys := b.items;
      forall i | 0 <= i < |xs|
        ensures Canonicalize(xs[i]) == Canonicalize(ys[i])
      {
        EquivCanonicalizeSame(xs[i], ys[i]);
      }
      assert Canonicalize(a).items == Canonicalize(b).items;
    case Obj(ms) =>
      var ns := b.members;
      forall i, k | 0 <= i < |ms| && 0 <= k < |ns| && ms[i].key == ns[k].key
        ensures Canonicalize(ms[i].value) == Canonicalize(ns[k].value)
      {
        EquivCanonicalizeSame(ms[i].value, ns[k].value);
      }
      ObjectsCanonicalizeSame(ms, ns);
    case _ =>
  }

  /** Values with the same canonical form are equivalent. */
  lemma {:induction false} CanonicalizeSameEquiv(a: Json, b: Json)
    requires WellFormed(a) && WellFormed(b)
    requires Canonicalize(a) == Canonicalize(b)
    ensures Equiv(a, b)
    decreases a
  {
    match a
    case Arr(xs) =>
      var ys := b.items;
      forall i | 0 <= i < |xs|
        ensures Equiv(xs[i], ys[i])
      {
        assert Canonicalize(a).items[i] == Canonicalize(xs[i]);
        assert Canonicalize(b).items[i] == Canonicalize(ys[i]);
        CanonicalizeSameEquiv(xs[i], ys[i]);
      }
    case Obj(ms) =>
      var ns := b.members;
      ObjectsCanonicalizeSameConverse(ms, ns);
      forall i, k | 0 <= i < |ms| && 0 <= k < |ns| && ms[i].key == ns[k].key
        ensures Equiv(ms[i].value, ns[k].value)
      {
        CanonicalizeSameEquiv(ms[i].value, ns[k].value);
      }
    case _ =>
  }

  /** The central fact: on decoded values, comparing canonical forms decides
      exactly the reference equivalence, in both directions. */
  lemma CanonicalizeSameIffEquiv(a: Json, b: Json)
    requires WellFormed(a) && WellFormed(b)
    ensures Canonicalize(a) == Canonicalize(b) <==> Equiv(a, b)
  {
    if Equiv(a, b) {
      EquivCanonicalizeSame(a, b);
    }
    if Canonicalize(a) == Canonicalize(b) {
      CanonicalizeSameEquiv(a, b);
    }
  }

  /** Equivalence is reflexive on decoded values. */
  lemma EquivReflexive(a: Json)
    requires WellFormed(a)
    ensures Equiv(a, a)
  {
    CanonicalizeSameIffEquiv(a, a);
  }

  /** Equivalence is symmetric on decoded values. */
  lemma EquivSymmetric(a: Json, b: Json)
    requires WellFormed(a) && WellFormed(b)
    requires Equiv(a, b)
    ensures Equiv(b, a)
  {
    CanonicalizeSameIffEquiv(a, b);
    CanonicalizeSameIffEquiv(b, a);
  }

  /** Equivalence is transitive on decoded values. */
  lemma EquivTransitive(a: Json, b: Json, c: Json)
    requires WellFormed(a) && WellFormed(b) && WellFormed(c)
    requires Equiv(a, b) && Equiv(b, c)
    ensures Equiv(a, c)
  {
    CanonicalizeSameIffEquiv(a, b);
    CanonicalizeSameIffEquiv(b, c);
    CanonicalizeSameIffEquiv(a, c);
  }
}
