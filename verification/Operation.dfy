/** What is read off a normalized operation: argument bindings and the data owner. */
module Operation {
  import opened Wrappers
  import opened Json
  import Strings
  import opened Fields
  import opened Arguments

  // Bindings

  /** The field path a mapping's sourceArgPath names: all but its last part. */
  function SourceFieldPath(mapping: ArgMapping): seq<string> {
    var parts := Strings.SplitOn(mapping.sourceArgPath, '-');
    parts[..|parts| - 1]
  }

  predicate Carries(f: Field, mapping: ArgMapping) {
    f.schemaPath == SourceFieldPath(mapping) && SourceArgName(mapping) in f.arguments
  }

  function BindOne(mapping: ArgMapping, walk: seq<Field>): seq<Binding> {
    if walk == [] then []
    else if Carries(walk[0], mapping) then
      [Binding(mapping, walk[0], walk[0].arguments[SourceArgName(mapping)])] + BindOne(mapping, walk[1..])
    else BindOne(mapping, walk[1..])
  }

  /** Each mapping bound to every occurrence of its argument, in mapping order, then query order. */
  function BindArguments(mappings: seq<Option<ArgMapping>>, fields: seq<Field>): seq<Binding> {
    if mappings == [] then []
    else
      (match mappings[0]
       case None => []
       case Some(mapping) => BindOne(mapping, Walk(fields)))
      + BindArguments(mappings[1..], fields)
  }

  /** A binding is a configured mapping at a field of the operation that carries its argument: all of them are bound,
      and an argument with the same name on a field at another schema path is not. */
  lemma {:induction false} BindingsAreOccurrences(mappings: seq<Option<ArgMapping>>, fields: seq<Field>, b: Binding)
    ensures b in BindArguments(mappings, fields) <==>
            && Some(b.mapping) in mappings && b.field in Walk(fields) && Carries(b.field, b.mapping)
            && b.value == b.field.arguments[SourceArgName(b.mapping)]
  {
    if mappings != [] {
      BindingsAreOccurrences(mappings[1..], fields, b);
      assert mappings == [mappings[0]] + mappings[1..];
      if mappings[0].Some? {
        BindOneMember(mappings[0].value, Walk(fields), b);
      }
    }
  }

  lemma {:induction false} BindOneMember(mapping: ArgMapping, walk: seq<Field>, b: Binding)
    ensures b in BindOne(mapping, walk) <==>
            && b.mapping == mapping && b.field in walk && Carries(b.field, mapping)
            && b.value == b.field.arguments[SourceArgName(mapping)]
  {
    if walk != [] {
      BindOneMember(mapping, walk[1..], b);
      assert walk == [walk[0]] + walk[1..];
    }
  }

  // The order of bindings

  /** The `at.1`-th field of the walk stands at the schema path that the `at.0`-th mapping's sourceArgPath names, and is
      given the argument that it ends with. */
  predicate CarriedAt(mappings: seq<Option<ArgMapping>>, walk: seq<Field>, at: (nat, nat)) {
    && at.0 < |mappings| && at.1 < |walk| && mappings[at.0].Some?
    && var parts := Strings.SplitOn(mappings[at.0].value.sourceArgPath, '-');
       parts[..|parts| - 1] == walk[at.1].schemaPath && parts[|parts| - 1] in walk[at.1].arguments
  }

  /** The argument's value there. */
  function CarriedValue(mappings: seq<Option<ArgMapping>>, walk: seq<Field>, at: (nat, nat)): Json
    requires CarriedAt(mappings, walk, at)
  {
    var parts := Strings.SplitOn(mappings[at.0].value.sourceArgPath, '-');
    walk[at.1].arguments[parts[|parts| - 1]]
  }

  /** Mapping order, then query order. */
  predicate Precedes(a: (nat, nat), b: (nat, nat)) {
    a.0 < b.0 || (a.0 == b.0 && a.1 < b.1)
  }

  /** The bindings are the occurrences at the places `at`, in order. */
  predicate BoundInOrder(mappings: seq<Option<ArgMapping>>, walk: seq<Field>, bindings: seq<Binding>,
                         at: seq<(nat, nat)>)
  {
    && |at| == |bindings|
    && (forall i | 0 <= i < |at| ::
          && CarriedAt(mappings, walk, at[i])
          && bindings[i] == Binding(mappings[at[i].0].value, walk[at[i].1], CarriedValue(mappings, walk, at[i])))
    && (forall i, j | 0 <= i < j < |at| :: Precedes(at[i], at[j]))
  }

  /** Bindings are in mapping order, then query order, and every occurrence is bound: `at` lists all of their places. */
  lemma BindingsInOrder(mappings: seq<Option<ArgMapping>>, fields: seq<Field>) returns (at: seq<(nat, nat)>)
    ensures BoundInOrder(mappings, Walk(fields), BindArguments(mappings, fields), at)
    ensures forall m: nat, k: nat :: CarriedAt(mappings, Walk(fields), (m, k)) ==> (m, k) in at
  {
    assert mappings[0..] == mappings;
    at := InOrderFrom(mappings, fields, 0);
  }

  lemma {:induction false} InOrderFrom(mappings: seq<Option<ArgMapping>>, fields: seq<Field>, m: nat)
    returns (at: seq<(nat, nat)>)
    requires m <= |mappings|
    ensures BoundInOrder(mappings, Walk(fields), BindArguments(mappings[m..], fields), at)
    ensures forall i | 0 <= i < |at| :: m <= at[i].0
    ensures forall n: nat, k: nat :: m <= n && CarriedAt(mappings, Walk(fields), (n, k)) ==> (n, k) in at
    decreases |mappings| - m
  {
    if m == |mappings| {
      at := [];
    } else {
      assert mappings[m..][0] == mappings[m] && mappings[m..][1..] == mappings[m + 1..];
      var rest := InOrderFrom(mappings, fields, m + 1);
      at := rest;
      if mappings[m].Some? {
        var walk := Walk(fields);
        assert walk[0..] == walk;
        var one := OneInOrder(mappings, walk, m, 0);
        at := one + rest;
        InOrderJoined(mappings, walk, BindOne(mappings[m].value, walk), one,
                      BindArguments(mappings[m + 1..], fields), rest);
      }
    }
  }

  lemma InOrderJoined(mappings: seq<Option<ArgMapping>>, walk: seq<Field>, a: seq<Binding>, at: seq<(nat, nat)>,
                      b: seq<Binding>, bt: seq<(nat, nat)>)
    requires BoundInOrder(mappings, walk, a, at) && BoundInOrder(mappings, walk, b, bt)
    requires forall i, j | 0 <= i < |at| && 0 <= j < |bt| :: Precedes(at[i], bt[j])
    ensures BoundInOrder(mappings, walk, a + b, at + bt)
  {
  }

  lemma {:induction false} OneInOrder(mappings: seq<Option<ArgMapping>>, walk: seq<Field>, m: nat, k: nat)
    returns (at: seq<(nat, nat)>)
    requires m < |mappings| && mappings[m].Some? && k <= |walk|
    ensures BoundInOrder(mappings, walk, BindOne(mappings[m].value, walk[k..]), at)
    ensures forall i | 0 <= i < |at| :: at[i].0 == m && k <= at[i].1
    ensures forall l: nat :: k <= l && CarriedAt(mappings, walk, (m, l)) ==> (m, l) in at
    decreases |walk| - k
  {
    if k == |walk| {
      at := [];
    } else {
      assert walk[k..][0] == walk[k] && walk[k..][1..] == walk[k + 1..];
      var rest := OneInOrder(mappings, walk, m, k + 1);
      at := rest;
      if CarriedAt(mappings, walk, (m, k)) {
        at := [(m, k)] + rest;
        var b := Binding(mappings[m].value, walk[k], CarriedValue(mappings, walk, (m, k)));
        assert BindOne(mappings[m].value, walk[k..]) == [b] + BindOne(mappings[m].value, walk[k + 1..]);
        InOrderJoined(mappings, walk, [b], [(m, k)], BindOne(mappings[m].value, walk[k + 1..]), rest);
      }
    }
  }

  // The data owner

  datatype OwnerError = MissingIdentifier | AmbiguousIdentifier

  /** The non-empty strings bound to the argument `argName` anywhere in the operation. */
  function OwnerValues(fields: seq<Field>, argName: string): set<string> {
    set f | f in Walk(fields) && argName in f.arguments && f.arguments[argName].Text? && f.arguments[argName].s != ""
      :: f.arguments[argName].s
  }

  /** The state of the visit: the identifier found so far and whether another was seen. */
  datatype OwnerScan = OwnerScan(id: string, ambiguous: bool)

  predicate ScanOf(scan: OwnerScan, values: set<string>) {
    && (scan.id == "" <==> values == {})
    && (scan.id != "" ==> scan.id in values)
    && (scan.ambiguous <==> exists v, w | v in values && w in values :: v != w)
    && "" !in values
  }

  method VisitOwner(fields: seq<Field>, argName: string, scan: OwnerScan, ghost values: set<string>)
    returns (result: OwnerScan)
    requires ScanOf(scan, values)
    ensures ScanOf(result, values + OwnerValues(fields, argName))
  {
    result := scan;
    ghost var seen := values;
    for i := 0 to |fields|
      invariant ScanOf(result, seen)
      invariant values + OwnerValues(fields, argName) == seen + OwnerValues(fields[i..], argName)
    {
      var f := fields[i];
      ghost var here := seen;
      WalkValues(fields[i..], argName);
      assert fields[i..][0] == f && fields[i..][1..] == fields[i + 1..];
      if argName in f.arguments && f.arguments[argName].Text? && f.arguments[argName].s != "" {
        var value := f.arguments[argName].s;
        here := seen + {value};
        if result.id == "" {
          result := OwnerScan(value, result.ambiguous);
        } else if value != result.id {
          result := OwnerScan(result.id, true);
        }
      }
      result := VisitOwner(f.selections, argName, result, here);
      seen := here + OwnerValues(f.selections, argName);
    }
    assert fields[|fields|..] == [];
  }

  function OwnValues(f: Field, argName: string): set<string> {
    if argName in f.arguments && f.arguments[argName].Text? && f.arguments[argName].s != ""
    then {f.arguments[argName].s} else {}
  }

  lemma WalkValues(fields: seq<Field>, argName: string)
    requires fields != []
    ensures OwnerValues(fields, argName) ==
            OwnValues(fields[0], argName) + OwnerValues(fields[0].selections, argName) +
            OwnerValues(fields[1..], argName)
  {
    var walk := [fields[0]] + Walk(fields[0].selections) + Walk(fields[1..]);
    assert forall f :: f in walk <==> f == fields[0] || f in Walk(fields[0].selections) || f in Walk(fields[1..]);
  }

  /** The data owner is identified exactly when all non-empty strings bound to the argument, aliases included, agree. */
  method DataOwnerID(fields: seq<Field>, argName: string) returns (r: Result<string, OwnerError>)
    ensures forall id :: r == Ok(id) <==> OwnerValues(fields, argName) == {id}
    ensures r == Err(MissingIdentifier) <==> OwnerValues(fields, argName) == {}
    ensures r == Err(AmbiguousIdentifier) <==>
            exists v, w | v in OwnerValues(fields, argName) && w in OwnerValues(fields, argName) :: v != w
  {
    var scan := VisitOwner(fields, argName, OwnerScan("", false), {});
    assert {} + OwnerValues(fields, argName) == OwnerValues(fields, argName);
    if scan.ambiguous {
      r := Err(AmbiguousIdentifier);
    } else if scan.id == "" {
      r := Err(MissingIdentifier);
    } else {
      r := Ok(scan.id);
      assert OwnerValues(fields, argName) == {scan.id};
    }
  }
}
