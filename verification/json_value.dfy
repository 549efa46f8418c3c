/** The value tree that decoding a JSON text (RFC 8259) produces. */
module JsonValue {

  /** One JSON value. A number keeps its literal text (`5.3`), so no floating
      point is involved; an object keeps its members in text order. */
  datatype Json =
    | Null
    | Bool(b: bool)
    | Number(literal: string)
    | Str(text: string)
    | Arr(items: seq<Json>)
    | Obj(members: seq<Member>)

  /** One `"key": value` member of an object. */
  datatype Member = Member(key: string, value: Json)

  /** The keys of a member list, in order. */
  function Keys(ms: seq<Member>): (ks: seq<string>)
    ensures |ks| == |ms|
    ensures forall i :: 0 <= i < |ms| ==> ks[i] == ms[i].key
  {
    seq(|ms|, i requires 0 <= i < |ms| => ms[i].key)
  }

  /** No key occurs twice in the member list. */
  predicate DistinctKeys(ms: seq<Member>)
  {
    forall i, j :: 0 <= i < j < |ms| ==> ms[i].key != ms[j].key
  }

  /** Every object, at every depth, has distinct keys. A decoder that lets the
      last duplicate win, as JSON decoders do, only ever produces such trees. */
  predicate WellFormed(j: Json)
  {
    match j
    case Arr(xs) => forall i :: 0 <= i < |xs| ==> WellFormed(xs[i])
    case Obj(ms) =>
      && DistinctKeys(ms)
      && forall i :: 0 <= i < |ms| ==> WellFormed(ms[i].value)
    case _ => true
  }
}
