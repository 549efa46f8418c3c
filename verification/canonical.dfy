/** Canonical form of a decoded JSON value: the members of every object, at
    every depth, sorted by key; array elements left in their order. This is
    the recursive key sort that `Json::canonicalize` applies before comparing. */
module Canonical {
  import opened JsonValue
  import KeyOrder

  /** Member keys never decrease along the list. */
  predicate SortedByKey(ms: seq<Member>)
  {
    forall i, j :: 0 <= i < j < |ms| ==> KeyOrder.LessEq(ms[i].key, ms[j].key)
  }

  /** Member keys strictly increase along the list; this implies distinct keys. */
  predicate StrictlySortedByKey(ms: seq<Member>)
  {
    forall i, j :: 0 <= i < j < |ms| ==> KeyOrder.Less(ms[i].key, ms[j].key)
  }

  /** Every object in the tree has its members sorted by key. */
  predicate IsCanonical(j: Json)
  {
    match j
    case Arr(xs) => forall i :: 0 <= i < |xs| ==> IsCanonical(xs[i])
    case Obj(ms) =>
      && SortedByKey(ms)
      && forall i :: 0 <= i < |ms| ==> IsCanonical(ms[i].value)
    case _ => true
  }

  /** Places `m` in front of the first member whose key is not smaller. */
  function Insert(m: Member, ms: seq<Member>): (r: seq<Member>)
    requires SortedByKey(ms)
    ensures SortedByKey(r)
    ensures multiset(r) == multiset(ms) + multiset{m}
  {
    if ms == [] || KeyOrder.LessEq(m.key, ms[0].key) then
      LessEqChain(m, ms);
      [m] + ms
    else
      KeyOrder.LessEqTotal(m.key, ms[0].key);
      var rest := Insert(m, ms[1..]);
      assert ms == [ms[0]] + ms[1..];
      HeadBelowAll(ms[0], rest, ms[1..], m);
      [ms[0]] + rest
  }

  /** A member whose key is at most the head of a sorted list is at most all of it. */
  lemma LessEqChain(m: Member, ms: seq<Member>)
    requires SortedByKey(ms)
    requires ms == [] || KeyOrder.LessEq(m.key, ms[0].key)
    ensures SortedByKey([m] + ms)
  {
    forall j | 0 <= j < |ms|
      ensures KeyOrder.LessEq(m.key, ms[j].key)
    {
      KeyOrder.LessEqTransitive(m.key, ms[0].key, ms[j].key);
    }
  }

  /** Prepending `h` keeps a sorted list sorted when `h` is at most everything in it. */
  lemma HeadBelowAll(h: Member, rest: seq<Member>, tail: seq<Member>, m: Member)
    requires SortedByKey(rest)
    requires multiset(rest) == multiset(tail) + multiset{m}
    requires forall j :: 0 <= j < |tail| ==> KeyOrder.LessEq(h.key, tail[j].key)
    requires KeyOrder.LessEq(h.key, m.key)
    ensures SortedByKey([h] + rest)
  {
    forall j | 0 <= j < |rest|
      ensures KeyOrder.LessEq(h.key, rest[j].key)
    {
      assert rest[j] in multiset(rest);
      if rest[j] != m {
        assert rest[j] in multiset(tail);
        var k :| 0 <= k < |tail| && tail[k] == rest[j];
      }
    }
  }

  /** Insertion sort of an object's members by key. It is stable: members with
      equal keys keep their relative order. */
  function SortMembers(ms: seq<Member>): (r: seq<Member>)
    ensures SortedByKey(r)
    ensures multiset(r) == multiset(ms)
  {
    if ms == [] then []
    else
      assert ms == [ms[0]] + ms[1..];
      Insert(ms[0], SortMembers(ms[1..]))
  }

  /** The recursive key sort: canonical form of a decoded value. Scalars are
      returned as they are, arrays keep their order, objects are sorted. */
  function Canonicalize(j: Json): (r: Json)
    ensures j.Null? <==> r.Null?
    ensures j.Bool? <==> r.Bool?
    ensures j.Number? <==> r.Number?
    ensures j.Str? <==> r.Str?
    ensures j.Arr? <==> r.Arr?
    ensures j.Obj? <==> r.Obj?
    ensures !j.Arr? && !j.Obj? ==> r == j
    ensures j.Arr? ==> |r.items| == |j.items|
    ensures j.Obj? ==> |r.members| == |j.members|
  {
    match j
    case Arr(xs) => Arr(seq(|xs|, i requires 0 <= i < |xs| => Canonicalize(xs[i])))
    case Obj(ms) =>
      var sorted := SortMembers(CanonicalizeValues(ms));
      assert |sorted| == |multiset(sorted)| == |CanonicalizeValues(ms)|;
      Obj(sorted)
    case _ => j
  }

  /** Canonicalizes the value of every member, keeping the keys in place. */
  function CanonicalizeValues(ms: seq<Member>): (r: seq<Member>)
    ensures Keys(r) == Keys(ms)
  {
    seq(|ms|, i requires 0 <= i < |ms| => Member(ms[i].key, Canonicalize(ms[i].value)))
  }

  /** Every member of the sorted list comes from the unsorted one, and back. */
  lemma SortMembersSameElements(ms: seq<Member>)
    ensures forall x :: x in SortMembers(ms) <==> x in ms
  {
    var r := SortMembers(ms);
    forall x
      ensures x in r <==> x in ms
    {
      assert x in r <==> x in multiset(r);
      assert x in ms <==> x in multiset(ms);
    }
  }

  /** Canonical form is canonical: every object it contains is sorted. */
  lemma {:induction false} CanonicalizeIsCanonical(j: Json)
    ensures IsCanonical(Canonicalize(j))
  {
    match j
    case Arr(xs) =>
      forall i | 0 <= i < |xs|
        ensures IsCanonical(Canonicalize(j).items[i])
      {
        CanonicalizeIsCanonical(xs[i]);
      }
    case Obj(ms) =>
      var cv := CanonicalizeValues(ms);
      var r := SortMembers(cv);
      SortMembersSameElements(cv);
      forall i | 0 <= i < |r|
        ensures IsCanonical(r[i].value)
      {
        assert r[i] in cv;
        var k :| 0 <= k < |cv| && cv[k] == r[i];
        CanonicalizeIsCanonical(ms[k].value);
      }
    case _ =>
  }

  /** Sorting an already sorted member list changes nothing. */
  lemma {:induction false} SortMembersOfSorted(ms: seq<Member>)
    requires SortedByKey(ms)
    ensures SortMembers(ms) == ms
  {
    if ms != [] {
      assert SortedByKey(ms[1..]);
      SortMembersOfSorted(ms[1..]);
      assert ms == [ms[0]] + ms[1..];
    }
  }

  /** Canonical values are fixed points of `Canonicalize`. */
  lemma {:induction false} CanonicalizeOfCanonical(j: Json)
    requires IsCanonical(j)
    ensures Canonicalize(j) == j
  {
    match j
    case Arr(xs) =>
      forall i | 0 <= i < |xs|
        ensures Canonicalize(xs[i]) == xs[i]
      {
        CanonicalizeOfCanonical(xs[i]);
      }
    case Obj(ms) =>
      var cv := CanonicalizeValues(ms);
      forall i | 0 <= i < |ms|
        ensures cv[i] == ms[i]
      {
        CanonicalizeOfCanonical(ms[i].value);
      }
      assert cv == ms;
      SortMembersOfSorted(ms);
    case _ =>
  }

  /** Canonicalizing twice is the same as canonicalizing once. */
  lemma CanonicalizeIdempotent(j: Json)
    ensures Canonicalize(Canonicalize(j)) == Canonicalize(j)
  {
    CanonicalizeIsCanonical(j);
    CanonicalizeOfCanonical(Canonicalize(j));
  }

  /** Inserting a member whose key is new into a strictly sorted list keeps it strictly sorted. */
  lemma {:induction false} InsertStrict(m: Member, ms: seq<Member>)
    requires StrictlySortedByKey(ms)
    requires forall k :: 0 <= k < |ms| ==> ms[k].key != m.key
    ensures StrictlySortedByKey(Insert(m, ms))
  {
    if ms == [] || KeyOrder.LessEq(m.key, ms[0].key) {
      forall j | 0 <= j < |ms|
        ensures KeyOrder.Less(m.key, ms[j].key)
      {
        if j > 0 {
          KeyOrder.LessTransitive(m.key, ms[0].key, ms[j].key);
        }
      }
    } else {
      KeyOrder.LessTotal(m.key, ms[0].key);
      assert StrictlySortedByKey(ms[1..]);
      InsertStrict(m, ms[1..]);
      var rest := Insert(m, ms[1..]);
      assert ms == [ms[0]] + ms[1..];
      forall j | 0 <= j < |rest|
        ensures KeyOrder.Less(ms[0].key, rest[j].key)
      {
        assert rest[j] in multiset(rest);
        if rest[j] != m {
          assert rest[j] in multiset(ms[1..]);
          var k :| 0 <= k < |ms[1..]| && ms[1..][k] == rest[j];
          assert rest[j] == ms[k + 1];
        }
      }
    }
  }

  /** Sorting members with distinct keys yields strictly increasing keys. */
  lemma {:induction false} SortMembersStrict(ms: seq<Member>)
    requires DistinctKeys(ms)
    ensures StrictlySortedByKey(SortMembers(ms))
  {
    if ms != [] {
      var tail := ms[1..];
      assert DistinctKeys(tail);
      SortMembersStrict(tail);
      var s := SortMembers(tail);
      SortMembersSameElements(tail);
      forall k | 0 <= k < |s|
        ensures s[k].key != ms[0].key
      {
        assert s[k] in tail;
      }
      InsertStrict(ms[0], s);
    }
  }

  /** Two strictly sorted lists with the same members start with the same member. */
  lemma SameHead(a: seq<Member>, b: seq<Member>)
    requires StrictlySortedByKey(a) && StrictlySortedByKey(b)
    requires forall x :: x in a <==> x in b
    requires a != []
    ensures b != [] && a[0] == b[0]
  {
    assert a[0] in b;
    assert b[0] in a;
    var i :| 0 <= i < |a| && a[i] == b[0];
    var k :| 0 <= k < |b| && b[k] == a[0];
    if i != 0 {
      assert KeyOrder.Less(a[0].key, b[0].key);
      if k != 0 {
        KeyOrder.LessTransitive(a[0].key, b[0].key, a[0].key);
      }
      KeyOrder.LessIrreflexive(a[0].key);
    }
  }

  /** After a common head, the rest of a strictly sorted list lies in the rest of the other. */
  lemma TailIncluded(a: seq<Member>, b: seq<Member>)
    requires StrictlySortedByKey(a)
    requires forall x :: x in a ==> x in b
    requires a != [] && b != [] && a[0] == b[0]
    ensures forall x :: x in a[1..] ==> x in b[1..]
  {
    forall x | x in a[1..]
      ensures x in b[1..]
    {
      var p :| 1 <= p < |a| && a[p] == x;
      KeyOrder.LessIrreflexive(a[0].key);
      assert x != b[0];
      assert x in b;
      var q :| 0 <= q < |b| && b[q] == x;
      assert x == b[1..][q - 1];
    }
  }

  /** Two strictly sorted member lists with the same members are the same list. */
  lemma {:induction false} StrictlySortedUnique(a: seq<Member>, b: seq<Member>)
    requires StrictlySortedByKey(a) && StrictlySortedByKey(b)
    requires forall x :: x in a <==> x in b
    ensures a == b
  {
    if b != [] {
      assert b[0] in b;
    }
    if a != [] {
      SameHead(a, b);
      TailIncluded(a, b);
      TailIncluded(b, a);
      assert StrictlySortedByKey(a[1..]) && StrictlySortedByKey(b[1..]);
      StrictlySortedUnique(a[1..], b[1..]);
      assert a == [a[0]] + a[1..] && b == [b[0]] + b[1..];
    }
  }
}
