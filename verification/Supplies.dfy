/** The arguments a provider has to be given for a field, read off the query and the configured mappings. */
module Supplies {
  import opened Wrappers
  import opened Json
  import opened Strings
  import Paths
  import opened Fields
  import opened Arguments
  import opened Operation
  import Document
  import Collection
  import Normalize
  import Merge
  import opened Reference
  import Federation

  /** The place `at` gives `f`'s provider an argument: its mapping is for `f`'s schema, its target leads to `f`'s
      provider field, and its field is `f` or an ancestor of `f`. */
  predicate GivenAt(mappings: seq<Option<ArgMapping>>, walk: seq<Field>, f: Field, at: (nat, nat))
    requires f.source.Some?
  {
    && CarriedAt(mappings, walk, at)
    && mappings[at.0].value.schemaId == f.source.value.schemaId
    && Paths.Split(mappings[at.0].value.targetArgPath) <= Paths.Split(f.source.value.providerField)
    && walk[at.1].path <= f.path
  }

  predicate SameTarget(a: ArgMapping, b: ArgMapping) {
    a.targetArgPath == b.targetArgPath && a.targetArgName == b.targetArgName
  }

  /** No earlier place gives an argument for the same target. */
  predicate FirstGiven(mappings: seq<Option<ArgMapping>>, walk: seq<Field>, f: Field, at: (nat, nat))
    requires f.source.Some?
  {
    && GivenAt(mappings, walk, f, at)
    && forall m: nat, k: nat | m < |mappings| && k < |walk| && GivenAt(mappings, walk, f, (m, k)) ::
         Precedes((m, k), at) ==> !SameTarget(mappings[m].value, mappings[at.0].value)
  }

  /** The type to declare: the mapping's target type or, without one, the type the schema gives the consumer argument
      where it is first defined, made non-null unless the value is null. */
  predicate Declares(mapping: ArgMapping, carrier: Field, value: Json, typ: TypeRef) {
    match mapping.targetType
    case Some(target) => typ == target
    case None =>
      exists i :: 0 <= i < |carrier.definition.args| && DefinedAt(mapping, carrier.definition.args, i) &&
                  var defined := carrier.definition.args[i].typ;
                  typ == defined.(nonNull := defined.nonNull || value != Null)
  }

  /** The `i`-th argument definition is the first one with the name that the mapping's sourceArgPath ends with. */
  predicate DefinedAt(mapping: ArgMapping, defs: seq<ArgDef>, i: nat)
    requires i < |defs|
  {
    var parts := SplitOn(mapping.sourceArgPath, '-');
    defs[i].name == parts[|parts| - 1] && forall j | 0 <= j < i :: defs[j].name != defs[i].name
  }

  /** `arg` is the argument given at `at`: under the mapping's target, with the value the query has there. */
  predicate Gives(mappings: seq<Option<ArgMapping>>, walk: seq<Field>, f: Field, at: (nat, nat),
                  arg: ProviderArgument)
    requires f.source.Some?
  {
    && FirstGiven(mappings, walk, f, at)
    && arg.path == mappings[at.0].value.targetArgPath && arg.name == mappings[at.0].value.targetArgName
    && arg.value == CarriedValue(mappings, walk, at)
    && Declares(mappings[at.0].value, walk[at.1], arg.value, arg.typ)
  }

  /** Some place gives the argument. */
  ghost predicate Given(mappings: seq<Option<ArgMapping>>, walk: seq<Field>, f: Field, arg: ProviderArgument)
    requires f.source.Some?
  {
    exists m: nat, k: nat :: Gives(mappings, walk, f, (m, k), arg)
  }

  /** The list holds an argument for the place's target. */
  predicate Answered(args: seq<ProviderArgument>, mapping: ArgMapping) {
    exists arg | arg in args :: arg.path == mapping.targetArgPath && arg.name == mapping.targetArgName
  }

  /** Sorted by path, then by name, each pair once. */
  predicate InOrder(args: seq<ProviderArgument>) {
    forall i, j | 0 <= i < j < |args| ::
      Less(args[i].path, args[j].path) || (args[i].path == args[j].path && Less(args[i].name, args[j].name))
  }

  /** `args` is what `f`'s provider has to be given: in order, what the first place gives for every target, and nothing
      else. */
  ghost predicate IsSupply(mappings: seq<Option<ArgMapping>>, walk: seq<Field>, f: Field, args: seq<ProviderArgument>)
    requires f.source.Some?
  {
    && InOrder(args)
    && (forall arg :: arg in args <==> Given(mappings, walk, f, arg))
    && (forall m: nat, k: nat | m < |mappings| && k < |walk| && FirstGiven(mappings, walk, f, (m, k)) ::
          Answered(args, mappings[m].value))
  }

  /** What `f`'s provider has to be given, if every argument has a type. */
  ghost function SupplyFor(mappings: seq<Option<ArgMapping>>, fields: seq<Field>, f: Field):
    Option<seq<ProviderArgument>>
  {
    if f.source.Some? && exists args :: IsSupply(mappings, Walk(fields), f, args) then
      var args :| IsSupply(mappings, Walk(fields), f, args); Some(args)
    else None
  }

  ghost function Supplied(mappings: seq<Option<ArgMapping>>, fields: seq<Field>): Supply {
    (f: Field) => SupplyFor(mappings, fields, f)
  }

  // Planning gives just these

  lemma AppliesIffGiven(mappings: seq<Option<ArgMapping>>, walk: seq<Field>, bindings: seq<Binding>,
                        at: seq<(nat, nat)>, f: Field, i: nat)
    requires f.source.Some? && BoundInOrder(mappings, walk, bindings, at) && i < |at|
    ensures Applies(bindings[i], f) <==> GivenAt(mappings, walk, f, at[i])
  {
    Paths.PathPrefixMeansPrefix(f.source.value.providerField, bindings[i].mapping.targetArgPath);
  }

  predicate Complete(mappings: seq<Option<ArgMapping>>, walk: seq<Field>, at: seq<(nat, nat)>) {
    forall m: nat, k: nat | m < |mappings| && k < |walk| && CarriedAt(mappings, walk, (m, k)) :: (m, k) in at
  }

  lemma FirstIffGiven(mappings: seq<Option<ArgMapping>>, walk: seq<Field>, bindings: seq<Binding>,
                      at: seq<(nat, nat)>, f: Field, i: nat)
    requires f.source.Some? && BoundInOrder(mappings, walk, bindings, at) && Complete(mappings, walk, at) && i < |at|
    ensures FirstApplies(bindings, f, {}, i) <==> FirstGiven(mappings, walk, f, at[i])
  {
    AppliesIffGiven(mappings, walk, bindings, at, f, i);
    if FirstGiven(mappings, walk, f, at[i]) {
      forall j | 0 <= j < i && Applies(bindings[j], f) ensures Target(bindings[j]) != Target(bindings[i]) {
        AppliesIffGiven(mappings, walk, bindings, at, f, j);
        assert Precedes((at[j].0, at[j].1), at[i]);
      }
    }
    if FirstApplies(bindings, f, {}, i) {
      forall m: nat, k: nat | m < |mappings| && k < |walk| && GivenAt(mappings, walk, f, (m, k))
                              && Precedes((m, k), at[i])
        ensures !SameTarget(mappings[m].value, mappings[at[i].0].value)
      {
        var j :| 0 <= j < |at| && at[j] == (m, k);
        AppliesIffGiven(mappings, walk, bindings, at, f, j);
        assert !(i < j);
        assert Target(bindings[j]) != Target(bindings[i]);
      }
    }
  }

  lemma TypeIsDeclared(b: Binding, typ: TypeRef)
    ensures ArgumentType(b) == Ok(typ) <==> Declares(b.mapping, b.field, b.value, typ)
  {
    FirstDefined(b.field.definition.args, SourceArgName(b.mapping));
    if b.mapping.targetType.None? {
      var defs := b.field.definition.args;
      if i: nat :| i < |defs| && DefinedAt(b.mapping, defs, i) {
        FirstIsDefined(defs, i);
      }
    }
  }

  lemma {:induction false} FirstDefined(defs: seq<ArgDef>, name: string)
    ensures DefinedType(defs, name).Some? ==>
              exists i :: 0 <= i < |defs| && defs[i].name == name && DefinedType(defs, name) == Some(defs[i].typ) &&
                          forall j | 0 <= j < i :: defs[j].name != defs[i].name
  {
    if defs != [] && defs[0].name != name {
      FirstDefined(defs[1..], name);
      if DefinedType(defs, name).Some? {
        var i :| 0 <= i < |defs[1..]| && defs[1..][i].name == name
                 && DefinedType(defs[1..], name) == Some(defs[1..][i].typ)
                 && forall j | 0 <= j < i :: defs[1..][j].name != defs[1..][i].name;
        assert forall j | 0 < j < i + 1 :: defs[j] == defs[1..][j - 1];
        assert defs[i + 1] == defs[1..][i];
      }
    }
  }

  lemma {:induction false} FirstIsDefined(defs: seq<ArgDef>, i: nat)
    requires i < |defs| && forall j | 0 <= j < i :: defs[j].name != defs[i].name
    ensures DefinedType(defs, defs[i].name) == Some(defs[i].typ)
  {
    if i > 0 {
      assert defs[1..][i - 1] == defs[i];
      assert forall j | 0 <= j < i - 1 :: defs[1..][j] == defs[j + 1];
      FirstIsDefined(defs[1..], i - 1);
    }
  }

  lemma BindingGives(mappings: seq<Option<ArgMapping>>, walk: seq<Field>, bindings: seq<Binding>,
                     at: seq<(nat, nat)>, f: Field, arg: ProviderArgument)
    requires f.source.Some? && BoundInOrder(mappings, walk, bindings, at) && Complete(mappings, walk, at)
    ensures FirstBinding(bindings, f, {}, arg) <==> Given(mappings, walk, f, arg)
  {
    if i: nat :| i < |bindings| && FirstAt(bindings, f, {}, arg, i) {
      FirstIffGiven(mappings, walk, bindings, at, f, i);
      TypeIsDeclared(bindings[i], arg.typ);
      assert Gives(mappings, walk, f, (at[i].0, at[i].1), arg);
    }
    if m: nat, k: nat :| Gives(mappings, walk, f, (m, k), arg) {
      var i: nat :| i < |at| && at[i] == (m, k);
      FirstIffGiven(mappings, walk, bindings, at, f, i);
      TypeIsDeclared(bindings[i], arg.typ);
      assert FirstAt(bindings, f, {}, arg, i);
    }
  }

  /** The arguments planned for a field are what its provider has to be given, and planning fails exactly when one of
      them has no type: each comes from the field itself or an ancestor, never from a sibling under another alias. */
  lemma ArgumentsAreSupplied(mappings: seq<Option<ArgMapping>>, fields: seq<Field>, f: Field)
    requires f.source.Some?
    ensures var planned := ArgumentsFor(BindArguments(mappings, fields), f);
            if planned.Ok? then IsSupply(mappings, Walk(fields), f, planned.value)
            else forall args :: !IsSupply(mappings, Walk(fields), f, args)
  {
    var bindings, walk := BindArguments(mappings, fields), Walk(fields);
    var at := BindingsInOrder(mappings, fields);
    SelectOkIff(bindings, f, {});
    if ArgumentsFor(bindings, f).Ok? {
      var args := ArgumentsFor(bindings, f).value;
      forall arg ensures arg in args <==> Given(mappings, walk, f, arg) {
        ArgumentsAreCanonical(bindings, f, arg);
        BindingGives(mappings, walk, bindings, at, f, arg);
      }
      SelectDistinct(bindings, f, {});
      SortSorts(Select(bindings, f, {}).value);
      forall m: nat, k: nat | m < |mappings| && k < |walk| && FirstGiven(mappings, walk, f, (m, k))
        ensures Answered(args, mappings[m].value)
      {
        var i: nat :| i < |at| && at[i] == (m, k);
        FirstIffGiven(mappings, walk, bindings, at, f, i);
        var mapping := mappings[m].value;
        var arg := ProviderArgument(mapping.targetArgPath, mapping.targetArgName, ArgumentType(bindings[i]).value,
                                    bindings[i].value);
        assert FirstAt(bindings, f, {}, arg, i);
        ArgumentsAreCanonical(bindings, f, arg);
      }
    } else {
      var i: nat :| i < |bindings| && FirstApplies(bindings, f, {}, i) && ArgumentType(bindings[i]).Err?;
      FirstIffGiven(mappings, walk, bindings, at, f, i);
      forall args ensures !IsSupply(mappings, walk, f, args) {
        if IsSupply(mappings, walk, f, args) {
          Untyped(mappings, walk, bindings, at, f, i, args);
        }
      }
    }
  }

  lemma Untyped(mappings: seq<Option<ArgMapping>>, walk: seq<Field>, bindings: seq<Binding>, at: seq<(nat, nat)>,
                f: Field, i: nat, args: seq<ProviderArgument>)
    requires f.source.Some? && BoundInOrder(mappings, walk, bindings, at) && Complete(mappings, walk, at) && i < |at|
    requires FirstApplies(bindings, f, {}, i) && FirstGiven(mappings, walk, f, at[i])
    requires IsSupply(mappings, walk, f, args)
    ensures ArgumentType(bindings[i]).Ok?
  {
    assert Answered(args, mappings[at[i].0].value) by {
      assert FirstGiven(mappings, walk, f, (at[i].0, at[i].1));
    }
    var mapping := mappings[at[i].0].value;
    var arg :| arg in args && arg.path == mapping.targetArgPath && arg.name == mapping.targetArgName;
    assert Given(mappings, walk, f, arg);
    BindingGives(mappings, walk, bindings, at, f, arg);
    var j: nat :| j < |bindings| && FirstAt(bindings, f, {}, arg, j);
    assert j == i;
  }

  lemma SupplyIsUnique(mappings: seq<Option<ArgMapping>>, walk: seq<Field>, f: Field, a: seq<ProviderArgument>,
                       b: seq<ProviderArgument>)
    requires f.source.Some? && IsSupply(mappings, walk, f, a) && IsSupply(mappings, walk, f, b)
    ensures a == b
  {
    forall arg ensures arg in a <==> arg in b {
      assert arg in a <==> Given(mappings, walk, f, arg);
      assert arg in b <==> Given(mappings, walk, f, arg);
    }
    SortedIsUnique(a, b);
  }

  /** What planning gives a field's provider is what the provider has to be given. */
  lemma BoundIsSupplied(mappings: seq<Option<ArgMapping>>, fields: seq<Field>, f: Field)
    ensures Federation.Bound(BindArguments(mappings, fields))(f) == Supplied(mappings, fields)(f)
  {
    if f.source.Some? {
      ArgumentsAreSupplied(mappings, fields, f);
      var planned := ArgumentsFor(BindArguments(mappings, fields), f);
      if planned.Ok? {
        var args :| IsSupply(mappings, Walk(fields), f, args) && SupplyFor(mappings, fields, f) == Some(args);
        SupplyIsUnique(mappings, Walk(fields), f, args, planned.value);
      }
    }
  }

  /** In a normalized operation a mapping has at most one place on the way to a field, so the first place for a target
      is that of the first mapping with one. */
  lemma OnePlace(mappings: seq<Option<ArgMapping>>, fields: seq<Field>, f: Field, m: nat, k: nat, l: nat)
    requires WellShaped(fields, []) && forall g | g in Walk(fields) :: |g.schemaPath| == |g.path|
    requires f.source.Some?
    requires GivenAt(mappings, Walk(fields), f, (m, k)) && GivenAt(mappings, Walk(fields), f, (m, l))
    ensures k == l
  {
    var walk := Walk(fields);
    PathsUnique(fields, []);
    assert walk[k] in walk && walk[l] in walk;
    assert walk[k].path == f.path[..|walk[k].path|] == walk[l].path;
  }

  lemma {:induction false} DepthsAgree(c: Document.Context, objectType: string, fields: seq<Field>, at: seq<string>,
                                       schemaAt: seq<string>)
    requires WellShaped(fields, at) && Normalize.Bound(c, objectType, fields, schemaAt) && |at| == |schemaAt|
    ensures forall g | g in Walk(fields) :: |g.schemaPath| == |g.path|
    decreases fields
  {
    if fields != [] {
      var first, rest := fields[0], fields[1..];
      assert first in fields;
      assert forall g | g in rest :: g in fields;
      if first.selections != [] {
        DepthsAgree(c, first.definition.typ.BaseName(), first.selections, first.path, first.schemaPath);
      }
      DepthsAgree(c, objectType, rest, at, schemaAt);
    }
  }

  // Executing with equal arguments

  /** Executing with the planned arguments is executing with those that providers have to be given. */
  lemma SameExecution(world: World, mappings: seq<Option<ArgMapping>>, fields: seq<Field>, objectType: string,
                      source: Merge.Scope)
    ensures ExecuteSet(world, Federation.Bound(BindArguments(mappings, fields)), fields, objectType, source) ==
            ExecuteSet(world, Supplied(mappings, fields), fields, objectType, source)
  {
    forall f ensures Federation.Bound(BindArguments(mappings, fields))(f) == Supplied(mappings, fields)(f) {
      BoundIsSupplied(mappings, fields, f);
    }
    SameSets(world, Federation.Bound(BindArguments(mappings, fields)), Supplied(mappings, fields), fields, objectType,
             source);
  }

  lemma {:induction false} SameSets(world: World, a: Supply, b: Supply, fields: seq<Field>, objectType: string,
                                    source: Merge.Scope)
    requires forall f :: a(f) == b(f)
    ensures ExecuteSet(world, a, fields, objectType, source) == ExecuteSet(world, b, fields, objectType, source)
    decreases fields, 0
  {
    if fields != [] {
      var front, last := fields[..|fields| - 1], fields[|fields| - 1];
      SameSets(world, a, b, front, objectType, source);
      SameField(world, a, b, last, objectType, source);
    }
  }

  lemma {:induction false} SameField(world: World, a: Supply, b: Supply, f: Field, objectType: string,
                                     source: Merge.Scope)
    requires forall g :: a(g) == b(g)
    ensures ExecuteField(world, a, f, objectType, source) == ExecuteField(world, b, f, objectType, source)
    decreases f, 1
  {
    if f.IsSourced() {
      assert Read(world, a, f, source) == Read(world, b, f, source);
      var raw := Read(world, a, f, source);
      if f.IsObjectList() && raw.List? {
        forall i | 0 <= i < |raw.items|
          ensures CompleteItem(world, a, f, raw.items[i]) == CompleteItem(world, b, f, raw.items[i])
        {
          SameItem(world, a, b, f, raw.items[i]);
        }
        assert seq(|raw.items|, i requires 0 <= i < |raw.items| => CompleteItem(world, a, f, raw.items[i]))
            == seq(|raw.items|, i requires 0 <= i < |raw.items| => CompleteItem(world, b, f, raw.items[i]));
      }
    } else if f.selections != [] {
      SameSets(world, a, b, f.selections, f.definition.typ.BaseName(), source);
    }
  }

  lemma {:induction false} SameItem(world: World, a: Supply, b: Supply, f: Field, item: Json)
    requires f.IsObjectList() && forall g :: a(g) == b(g)
    ensures CompleteItem(world, a, f, item) == CompleteItem(world, b, f, item)
    decreases f, 0
  {
    if item != Null {
      SameSets(world, a, b, f.selections, f.definition.typ.elem.BaseName(),
               Merge.Within(item, f.source.value.providerField));
    }
  }
}
