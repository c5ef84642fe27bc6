/** The provider arguments of a field, and the key that decides which fields share a provider operation. */
module Arguments {
  import opened Wrappers
  import opened Json
  import opened Strings
  import Paths
  import opened Fields

  /** A configured mapping from a consumer argument to a provider argument. */
  datatype ArgMapping = ArgMapping(
    schemaId: string,
    sourceArgPath: string,
    targetArgPath: string,
    targetArgName: string,
    targetType: Option<TypeRef>)

  /** A mapping bound to one occurrence of its consumer argument on `field`. */
  datatype Binding = Binding(mapping: ArgMapping, field: Field, value: Json)

  /** What a provider operation is given beyond its selection: a value of type `typ`, under `name`, for the field at
      `path`. */
  datatype ProviderArgument = ProviderArgument(path: string, name: string, typ: TypeRef, value: Json)

  datatype PlanError =
    | IntrospectionField(name: string)
    | ListWithoutSource(schemaPath: seq<string>)
    | UndefinedArgument(name: string, schemaPath: seq<string>)

  /** The consumer argument a mapping reads: the last part of its sourceArgPath. */
  function SourceArgName(mapping: ArgMapping): string {
    var parts := SplitOn(mapping.sourceArgPath, '-');
    parts[|parts| - 1]
  }

  /** The type of the argument definition named `name`, the first one if repeated. */
  function DefinedType(defs: seq<ArgDef>, name: string): Option<TypeRef> {
    if defs == [] then None
    else if defs[0].name == name then Some(defs[0].typ)
    else DefinedType(defs[1..], name)
  }

  /** The type to declare for a binding: the mapping's own, or the consumer argument's made non-null for a value. */
  function ArgumentType(b: Binding): Result<TypeRef, PlanError> {
    match b.mapping.targetType
    case Some(typ) => Ok(typ)
    case None =>
      match DefinedType(b.field.definition.args, SourceArgName(b.mapping))
      case None => Err(UndefinedArgument(SourceArgName(b.mapping), b.field.schemaPath))
      case Some(typ) => Ok(if b.value != Null && !typ.nonNull then typ.(nonNull := true) else typ)
  }

  /** A binding serves a field of the same schema when its target leads to the field's provider field and it is
      carried by the field or an ancestor. */
  predicate Applies(b: Binding, field: Field)
    requires field.source.Some?
  {
    && b.mapping.schemaId == field.source.value.schemaId
    && Paths.IsPathPrefix(field.source.value.providerField, b.mapping.targetArgPath)
    && b.field.path <= field.path
  }

  function Target(b: Binding): (string, string) {
    (b.mapping.targetArgPath, b.mapping.targetArgName)
  }

  /** The bindings that apply, the first for each target winning, in binding order. */
  function Select(bindings: seq<Binding>, field: Field, seen: set<(string, string)>):
    Result<seq<ProviderArgument>, PlanError>
    requires field.source.Some?
  {
    if bindings == [] then Ok([])
    else
      var b := bindings[0];
      if !Applies(b, field) || Target(b) in seen then Select(bindings[1..], field, seen)
      else
        var typ :- ArgumentType(b);
        var rest :- Select(bindings[1..], field, seen + {Target(b)});
        Ok([ProviderArgument(Target(b).0, Target(b).1, typ, b.value)] + rest)
  }

  /** The order of provider arguments: by path, then by name. */
  predicate Before(a: ProviderArgument, b: ProviderArgument) {
    Less(a.path, b.path) || (a.path == b.path && Less(a.name, b.name))
  }

  predicate StrictlySorted(args: seq<ProviderArgument>) {
    forall i, j | 0 <= i < j < |args| :: Before(args[i], args[j])
  }

  function Insert(arg: ProviderArgument, args: seq<ProviderArgument>): seq<ProviderArgument> {
    if args == [] || Before(arg, args[0]) then [arg] + args else [args[0]] + Insert(arg, args[1..])
  }

  function Sort(args: seq<ProviderArgument>): seq<ProviderArgument> {
    if args == [] then [] else Insert(args[0], Sort(args[1..]))
  }

  /** The arguments of the operation that `field` is read from. */
  function ArgumentsFor(bindings: seq<Binding>, field: Field): Result<seq<ProviderArgument>, PlanError>
    requires field.source.Some?
  {
    var args :- Select(bindings, field, {});
    Ok(Sort(args))
  }

  // What the argument list holds

  /** The `i`-th binding is the first applicable one for its target, and gives `arg`. */
  predicate FirstAt(bindings: seq<Binding>, field: Field, seen: set<(string, string)>, arg: ProviderArgument, i: nat)
    requires field.source.Some? && i < |bindings|
  {
    && Applies(bindings[i], field)
    && Target(bindings[i]) == (arg.path, arg.name) && Target(bindings[i]) !in seen
    && (forall j | 0 <= j < i && Applies(bindings[j], field) :: Target(bindings[j]) != Target(bindings[i]))
    && ArgumentType(bindings[i]) == Ok(arg.typ)
    && arg.value == bindings[i].value
  }

  /** `arg` is what the first applicable binding for its target and name gives. */
  ghost predicate FirstBinding(bindings: seq<Binding>, field: Field, seen: set<(string, string)>, arg: ProviderArgument)
    requires field.source.Some?
  {
    exists i: nat | i < |bindings| :: FirstAt(bindings, field, seen, arg, i)
  }

  /** What is first in the rest, given what has been seen, is first in the whole. */
  lemma FirstInRest(bindings: seq<Binding>, field: Field, seen: set<(string, string)>, arg: ProviderArgument, i: nat)
    requires field.source.Some? && 0 < i < |bindings|
    ensures var b := bindings[0];
            var seen' := if Applies(b, field) && Target(b) !in seen then seen + {Target(b)} else seen;
            FirstAt(bindings, field, seen, arg, i) <==> FirstAt(bindings[1..], field, seen', arg, i - 1)
  {
    var rest := bindings[1..];
    assert rest[i - 1] == bindings[i];
    assert forall j | 0 <= j < i - 1 :: rest[j] == bindings[j + 1];
    assert forall j | 0 < j < i :: bindings[j] == rest[j - 1];
  }

  lemma {:induction false} SelectIsFirst(bindings: seq<Binding>, field: Field, seen: set<(string, string)>,
                                         arg: ProviderArgument)
    requires field.source.Some? && Select(bindings, field, seen).Ok?
    ensures arg in Select(bindings, field, seen).value <==> FirstBinding(bindings, field, seen, arg)
  {
    if bindings != [] {
      var b, rest := bindings[0], bindings[1..];
      var seen' := if Applies(b, field) && Target(b) !in seen then seen + {Target(b)} else seen;
      SelectIsFirst(rest, field, seen', arg);
      var head := Applies(b, field) && Target(b) !in seen && ArgumentType(b) == Ok(arg.typ)
        && Target(b) == (arg.path, arg.name) && b.value == arg.value;
      assert head <==> FirstAt(bindings, field, seen, arg, 0);
      assert arg in Select(bindings, field, seen).value <==> head || arg in Select(rest, field, seen').value;
      if i: nat :| i < |rest| && FirstAt(rest, field, seen', arg, i) {
        FirstInRest(bindings, field, seen, arg, i + 1);
      }
      if i: nat :| i < |bindings| && FirstAt(bindings, field, seen, arg, i) {
        if i > 0 {
          FirstInRest(bindings, field, seen, arg, i);
          assert FirstBinding(rest, field, seen', arg);
        }
      }
    }
  }

  /** The `i`-th binding is the first that applies for its target. */
  predicate FirstApplies(bindings: seq<Binding>, field: Field, seen: set<(string, string)>, i: nat)
    requires field.source.Some? && i < |bindings|
  {
    && Applies(bindings[i], field) && Target(bindings[i]) !in seen
    && forall j | 0 <= j < i && Applies(bindings[j], field) :: Target(bindings[j]) != Target(bindings[i])
  }

  /** Selecting fails exactly when a binding that is first for its target has no type. */
  lemma {:induction false} SelectOkIff(bindings: seq<Binding>, field: Field, seen: set<(string, string)>)
    requires field.source.Some?
    ensures Select(bindings, field, seen).Ok? <==>
            forall i: nat | i < |bindings| && FirstApplies(bindings, field, seen, i) :: ArgumentType(bindings[i]).Ok?
  {
    if bindings != [] {
      var b, rest := bindings[0], bindings[1..];
      var seen' := if Applies(b, field) && Target(b) !in seen then seen + {Target(b)} else seen;
      SelectOkIff(rest, field, seen');
      forall i: nat | 0 < i < |bindings|
        ensures FirstApplies(bindings, field, seen, i) <==> FirstApplies(rest, field, seen', i - 1)
      {
        assert rest[i - 1] == bindings[i];
        assert forall j | 0 <= j < i - 1 :: rest[j] == bindings[j + 1];
        assert forall j | 0 < j < i :: bindings[j] == rest[j - 1];
      }
      assert FirstApplies(bindings, field, seen, 0) <==> Applies(b, field) && Target(b) !in seen;
      forall i: nat | i < |rest| && FirstApplies(rest, field, seen', i)
        ensures FirstApplies(bindings, field, seen, i + 1) && rest[i] == bindings[i + 1]
      {
      }
    }
  }

  lemma {:induction false} SelectDistinct(bindings: seq<Binding>, field: Field, seen: set<(string, string)>)
    requires field.source.Some? && Select(bindings, field, seen).Ok?
    ensures var args := Select(bindings, field, seen).value;
            && (forall i, j | 0 <= i < j < |args| :: (args[i].path, args[i].name) != (args[j].path, args[j].name))
            && (forall a | a in args :: (a.path, a.name) !in seen)
  {
    if bindings != [] {
      var b := bindings[0];
      if !Applies(b, field) || Target(b) in seen {
        SelectDistinct(bindings[1..], field, seen);
      } else {
        SelectDistinct(bindings[1..], field, seen + {Target(b)});
      }
    }
  }

  lemma BeforeTotal(a: ProviderArgument, b: ProviderArgument)
    ensures Before(a, b) || Before(b, a) || (a.path, a.name) == (b.path, b.name)
    ensures !(Before(a, b) && Before(b, a))
    ensures !Before(a, a)
  {
    LessTotal(a.path, b.path);
    LessTotal(a.name, b.name);
  }

  lemma BeforeTransitive(a: ProviderArgument, b: ProviderArgument, c: ProviderArgument)
    requires Before(a, b) && Before(b, c)
    ensures Before(a, c)
  {
    if Less(a.path, b.path) && Less(b.path, c.path) {
      LessTransitive(a.path, b.path, c.path);
    }
    if Less(a.name, b.name) && Less(b.name, c.name) {
      LessTransitive(a.name, b.name, c.name);
    }
  }

  lemma {:induction false} InsertSorted(arg: ProviderArgument, args: seq<ProviderArgument>)
    requires StrictlySorted(args) && forall a | a in args :: (a.path, a.name) != (arg.path, arg.name)
    ensures StrictlySorted(Insert(arg, args))
    ensures forall a :: a in Insert(arg, args) <==> a == arg || a in args
  {
    if args != [] {
      assert args[0] in args;
      BeforeTotal(arg, args[0]);
      if Before(arg, args[0]) {
        forall j | 0 <= j < |args| ensures Before(arg, args[j]) {
          if j > 0 {
            BeforeTransitive(arg, args[0], args[j]);
          }
        }
      } else {
        var rest := args[1..];
        forall i, j | 0 <= i < j < |rest| ensures Before(rest[i], rest[j]) {
          assert rest[i] == args[i + 1] && rest[j] == args[j + 1];
        }
        assert forall a | a in rest :: a in args;
        InsertSorted(arg, rest);
        var inserted := Insert(arg, rest);
        forall j | 0 <= j < |inserted| ensures Before(args[0], inserted[j]) {
          assert inserted[j] in inserted;
        }
        assert args == [args[0]] + rest;
      }
    }
  }

  lemma {:induction false} SortSorts(args: seq<ProviderArgument>)
    requires forall i, j | 0 <= i < j < |args| :: (args[i].path, args[i].name) != (args[j].path, args[j].name)
    ensures StrictlySorted(Sort(args))
    ensures forall a :: a in Sort(args) <==> a in args
  {
    if args != [] {
      SortSorts(args[1..]);
      InsertSorted(args[0], Sort(args[1..]));
      assert args == [args[0]] + args[1..];
    }
  }

  /** The argument list of a field is strictly sorted by path and name, and holds for each pair exactly what the first
      binding that applies gives. */
  lemma ArgumentsAreCanonical(bindings: seq<Binding>, field: Field, arg: ProviderArgument)
    requires field.source.Some? && ArgumentsFor(bindings, field).Ok?
    ensures StrictlySorted(ArgumentsFor(bindings, field).value)
    ensures arg in ArgumentsFor(bindings, field).value <==> FirstBinding(bindings, field, {}, arg)
  {
    SelectDistinct(bindings, field, {});
    SelectIsFirst(bindings, field, {}, arg);
    SortSorts(Select(bindings, field, {}).value);
  }

  lemma TailMembers(args: seq<ProviderArgument>, x: ProviderArgument)
    requires args != [] && StrictlySorted(args)
    ensures x in args <==> x == args[0] || x in args[1..]
    ensures x in args[1..] ==> Before(args[0], x)
  {
    assert args == [args[0]] + args[1..];
  }

  /** Only one strictly sorted list holds given arguments, so the sorting algorithm does not matter. */
  lemma {:induction false} SortedIsUnique(a: seq<ProviderArgument>, b: seq<ProviderArgument>)
    requires StrictlySorted(a) && StrictlySorted(b)
    requires forall x :: x in a <==> x in b
    ensures a == b
  {
    assert a != [] ==> a[0] in a;
    assert b != [] ==> b[0] in b;
    if a != [] {
      TailMembers(a, b[0]);
      TailMembers(b, a[0]);
      BeforeTotal(a[0], b[0]);
      assert a[0] == b[0];
      forall x ensures x in a[1..] <==> x in b[1..] {
        BeforeTotal(a[0], a[0]);
        TailMembers(a, x);
        TailMembers(b, x);
      }
      assert StrictlySorted(a[1..]) && StrictlySorted(b[1..]);
      SortedIsUnique(a[1..], b[1..]);
      assert a == [a[0]] + a[1..] && b == [b[0]] + b[1..];
    }
  }

  // The grouping key

  /** The key of a provider operation: the schema, then path, name, type and encoded value of each argument, separated
      by NULs. `marshal` is json.Marshal. */
  function Key(marshal: Json -> string, schemaId: string, args: seq<ProviderArgument>): string {
    if args == [] then schemaId
    else
      var last := args[|args| - 1];
      Key(marshal, schemaId, args[..|args| - 1])
        + "\0" + last.path + "\0" + last.name + "\0" + last.typ.Written() + "\0" + marshal(last.value)
  }

  function KeyParts(marshal: Json -> string, schemaId: string, args: seq<ProviderArgument>): (parts: seq<string>)
    ensures |parts| == 1 + 4 * |args|
  {
    if args == [] then [schemaId]
    else
      var last := args[|args| - 1];
      KeyParts(marshal, schemaId, args[..|args| - 1]) + [last.path, last.name, last.typ.Written(), marshal(last.value)]
  }

  /** Encoded values hold no NUL and determine the value. */
  ghost predicate Faithful(marshal: Json -> string) {
    && (forall v :: Without(marshal(v), '\0'))
    && (forall v, w :: marshal(v) == marshal(w) ==> v == w)
  }

  predicate CleanArgument(arg: ProviderArgument) {
    Without(arg.path, '\0') && Without(arg.name, '\0') && arg.typ.Plain()
  }

  predicate Clean(schemaId: string, args: seq<ProviderArgument>) {
    Without(schemaId, '\0') && forall a | a in args :: CleanArgument(a)
  }

  lemma {:induction false} SplitKey(marshal: Json -> string, schemaId: string, args: seq<ProviderArgument>)
    requires Faithful(marshal) && Clean(schemaId, args)
    ensures SplitOn(Key(marshal, schemaId, args), '\0') == KeyParts(marshal, schemaId, args)
  {
    if args == [] {
      SplitAtom(schemaId, '\0');
    } else {
      var front, last := args[..|args| - 1], args[|args| - 1];
      assert last in args;
      SplitKey(marshal, schemaId, front);
      WrittenNulFree(last.typ);
      var k0 := Key(marshal, schemaId, front);
      var k1 := k0 + "\0" + last.path;
      var k2 := k1 + "\0" + last.name;
      var k3 := k2 + "\0" + last.typ.Written();
      SplitLast(k0, last.path);
      SplitLast(k1, last.name);
      SplitLast(k2, last.typ.Written());
      SplitLast(k3, marshal(last.value));
    }
  }

  lemma SplitLast(s: string, part: string)
    requires Without(part, '\0')
    ensures SplitOn(s + "\0" + part, '\0') == SplitOn(s, '\0') + [part]
  {
    SplitConcat(s, part, '\0');
    SplitAtom(part, '\0');
  }

  lemma {:induction false} PartsInjective(marshal: Json -> string, s: string, a: seq<ProviderArgument>,
                                          t: string, b: seq<ProviderArgument>)
    requires Faithful(marshal) && Clean(s, a) && Clean(t, b)
    requires KeyParts(marshal, s, a) == KeyParts(marshal, t, b)
    ensures s == t && a == b
  {
    assert |a| == |b| by {
      assert |KeyParts(marshal, s, a)| == |KeyParts(marshal, t, b)|;
    }
    if a != [] {
      var fa, la := a[..|a| - 1], a[|a| - 1];
      var fb, lb := b[..|b| - 1], b[|b| - 1];
      var pa, pb := KeyParts(marshal, s, fa), KeyParts(marshal, t, fb);
      var qa := [la.path, la.name, la.typ.Written(), marshal(la.value)];
      var qb := [lb.path, lb.name, lb.typ.Written(), marshal(lb.value)];
      assert pa + qa == pb + qb && |pa| == |pb|;
      assert pa == (pa + qa)[..|pa|] && pb == (pb + qb)[..|pb|];
      assert qa == (pa + qa)[|pa|..] && qb == (pb + qb)[|pb|..];
      assert qa[0] == qb[0] && qa[1] == qb[1] && qa[2] == qb[2] && qa[3] == qb[3];
      assert la in a && lb in b;
      WrittenInjective(la.typ, lb.typ);
      PartsInjective(marshal, s, fa, t, fb);
      assert a == fa + [la] && b == fb + [lb];
    }
  }

  /** Two fields share a provider operation just when they have the same schema and the same arguments. */
  lemma KeyCanonical(marshal: Json -> string, s: string, a: seq<ProviderArgument>,
                     t: string, b: seq<ProviderArgument>)
    requires Faithful(marshal) && Clean(s, a) && Clean(t, b)
    ensures Key(marshal, s, a) == Key(marshal, t, b) <==> s == t && a == b
  {
    if Key(marshal, s, a) == Key(marshal, t, b) {
      SplitKey(marshal, s, a);
      SplitKey(marshal, t, b);
      PartsInjective(marshal, s, a, t, b);
    }
  }
}
