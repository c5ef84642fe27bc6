/** Decoded JSON: what providers answer, what arguments carry and what consumers receive. */
module Json {

  datatype Json =
    | Null
    | Bool(b: bool)
    | Number(text: string)
    | Text(s: string)
    | Object(members: map<string, Json>)
    | List(items: seq<Json>)

  /** Indexing a Go map: a missing key reads as nil. */
  function Get(members: map<string, Json>, key: string): Json {
    if key in members then members[key] else Null
  }

  /** What is found by following `segments` down through objects; lists on the way are mapped over, and anything else
      has nothing below it. */
  function ValueAt(data: Json, segments: seq<string>): Json
    decreases |segments|, data
  {
    if segments == [] then data
    else match data
      case Object(members) => ValueAt(Get(members, segments[0]), segments[1..])
      case List(items) => List(seq(|items|, i requires 0 <= i < |items| => ValueAt(items[i], segments)))
      case _ => Null
  }

  /** Reading a path in two legs is reading it in one: an item of a list, once reached, is read from there. */
  lemma {:induction false} ValueAtConcat(data: Json, p: seq<string>, q: seq<string>)
    ensures ValueAt(data, p + q) == ValueAt(ValueAt(data, p), q)
    decreases |p|, data
  {
    if p == [] {
      assert p + q == q;
    } else {
      match data {
        case Object(members) =>
          assert (p + q)[1..] == p[1..] + q;
          ValueAtConcat(Get(members, p[0]), p[1..], q);
        case List(items) =>
          forall i | 0 <= i < |items| ensures ValueAt(items[i], p + q) == ValueAt(ValueAt(items[i], p), q) {
            ValueAtConcat(items[i], p, q);
          }
          if q == [] {
            assert p + q == p;
          } else {
            var lhs, rhs := ValueAt(data, p + q), ValueAt(ValueAt(data, p), q);
            assert |lhs.items| == |rhs.items|;
            assert forall i | 0 <= i < |items| :: lhs.items[i] == rhs.items[i];
          }
        case _ =>
          assert ValueAt(data, p) == Null;
      }
    }
  }
}
