/** A validated consumer query document, as the parser leaves it, and what normalization needs of the schema. */
module Document {
  import opened Wrappers
  import opened Json
  import opened Fields

  datatype Argument = Argument(name: string, value: Value)

  datatype Directive = Directive(name: string, arguments: seq<Argument>)

  datatype FieldNode = FieldNode(
    alias: string,
    name: string,
    arguments: seq<Argument>,
    directives: seq<Directive>,
    definition: Option<FieldDef>,
    selections: seq<Selection>)
  {
    function ResponseKey(): string {
      if alias == "" then name else alias
    }
  }

  datatype Selection =
    | Select(field: FieldNode)
    | Spread(name: string, spreadDirectives: seq<Directive>)
    | Inline(typeCondition: string, inlineDirectives: seq<Directive>, selections: seq<Selection>)
  {
    function Directives(): seq<Directive> {
      match this
      case Select(f) => f.directives
      case Spread(_, directives) => directives
      case Inline(_, directives, _) => directives
    }
  }

  datatype Fragment = Fragment(typeCondition: string, selections: seq<Selection>)

  /** The document's fragments, the schema, and the request's coerced variables. `evaluate` is the parser's evaluation
      of a written value, which may fail. */
  datatype Context = Context(
    fragments: map<string, Fragment>,
    possibleTypes: map<string, set<string>>,
    objectTypes: set<string>,
    sources: map<(string, string), SourceInfo>,
    variables: map<string, Json>,
    evaluate: (Value, map<string, Json>) -> Option<Json>)

  datatype BuildError =
    | UndefinedFragment(name: string)
    | MissingCondition(directive: string)
    | BadCondition(directive: string)
    | NoDefinition(typeName: string, name: string)
    | BadArgument(typeName: string, name: string, argument: string)
    | NotAnObject(typeName: string, name: string, fieldType: string)

  function ArgumentNamed(arguments: seq<Argument>, name: string): Option<Value> {
    if arguments == [] then None
    else if arguments[0].name == name then Some(arguments[0].value)
    else ArgumentNamed(arguments[1..], name)
  }

  function DirectiveNamed(directives: seq<Directive>, name: string): Option<Directive> {
    if directives == [] then None
    else if directives[0].name == name then Some(directives[0])
    else DirectiveNamed(directives[1..], name)
  }

  /** The value of a directive's `if` argument. */
  function Condition(c: Context, directive: Directive): Result<bool, BuildError> {
    match ArgumentNamed(directive.arguments, "if")
    case None => Err(MissingCondition(directive.name))
    case Some(value) =>
      match c.evaluate(value, c.variables)
      case Some(Bool(b)) => Ok(b)
      case _ => Err(BadCondition(directive.name))
  }

  /** @skip and @include. */
  function Included(c: Context, directives: seq<Directive>): Result<bool, BuildError> {
    var skipped :- match DirectiveNamed(directives, "skip") { case None => Ok(false) case Some(d) => Condition(c, d) };
    if skipped then Ok(false)
    else match DirectiveNamed(directives, "include") { case None => Ok(true) case Some(d) => Condition(c, d) }
  }

  // What the directives say

  /** The `i`-th directive is the first one called `name`. */
  predicate FirstDirective(directives: seq<Directive>, name: string, i: nat) {
    && i < |directives| && directives[i].name == name
    && forall j | 0 <= j < i :: directives[j].name != name
  }

  /** The `k`-th argument is the first one called `name`. */
  predicate FirstArgument(arguments: seq<Argument>, name: string, k: nat) {
    && k < |arguments| && arguments[k].name == name
    && forall j | 0 <= j < k :: arguments[j].name != name
  }

  predicate Absent(directives: seq<Directive>, name: string) {
    forall d | d in directives :: d.name != name
  }

  /** There is such a directive, and the value given for `if` evaluates to `b` for the request's variables. */
  ghost predicate Says(c: Context, directives: seq<Directive>, name: string, b: bool) {
    exists i: nat, k: nat | FirstDirective(directives, name, i) && FirstArgument(directives[i].arguments, "if", k) ::
      c.evaluate(directives[i].arguments[k].value, c.variables) == Some(Bool(b))
  }

  /** There is such a directive, without a value for `if`. */
  ghost predicate Unconditional(directives: seq<Directive>, name: string) {
    exists i: nat | FirstDirective(directives, name, i) :: forall a | a in directives[i].arguments :: a.name != "if"
  }

  /** There is such a directive, and the value given for `if` is no boolean or cannot be evaluated. */
  ghost predicate NoBoolean(c: Context, directives: seq<Directive>, name: string) {
    exists i: nat, k: nat | FirstDirective(directives, name, i) && FirstArgument(directives[i].arguments, "if", k) ::
      forall b :: c.evaluate(directives[i].arguments[k].value, c.variables) != Some(Bool(b))
  }

  /** A selection is left out exactly when @skip says true, or @skip says nothing or false and @include says false; it
      is an error exactly when the directive asked for its word, @skip first and @include only if @skip does not say
      true, has no condition or one that is no boolean; and otherwise it is included. */
  lemma IncludedIff(c: Context, directives: seq<Directive>)
    ensures var r := Included(c, directives);
            var asked := Absent(directives, "skip") || Says(c, directives, "skip", false);
            && (r == Ok(false) <==>
                  Says(c, directives, "skip", true) || (asked && Says(c, directives, "include", false)))
            && (r == Ok(true) <==>
                  asked && (Absent(directives, "include") || Says(c, directives, "include", true)))
            && (r == Err(MissingCondition("skip")) <==> Unconditional(directives, "skip"))
            && (r == Err(BadCondition("skip")) <==> NoBoolean(c, directives, "skip"))
            && (r == Err(MissingCondition("include")) <==> asked && Unconditional(directives, "include"))
            && (r == Err(BadCondition("include")) <==> asked && NoBoolean(c, directives, "include"))
  {
    DirectiveSays(c, directives, "skip");
    DirectiveSays(c, directives, "include");
  }

  /** A directive has exactly one of its words. */
  lemma DirectiveSays(c: Context, directives: seq<Directive>, name: string)
    ensures Absent(directives, name) <==> DirectiveNamed(directives, name).None?
    ensures DirectiveNamed(directives, name).Some? ==> DirectiveNamed(directives, name).value.name == name
    ensures forall b :: Says(c, directives, name, b) <==>
              DirectiveNamed(directives, name).Some? && Condition(c, DirectiveNamed(directives, name).value) == Ok(b)
    ensures Unconditional(directives, name) <==>
              DirectiveNamed(directives, name).Some? &&
              Condition(c, DirectiveNamed(directives, name).value) == Err(MissingCondition(name))
    ensures NoBoolean(c, directives, name) <==>
              DirectiveNamed(directives, name).Some? &&
              Condition(c, DirectiveNamed(directives, name).value) == Err(BadCondition(name))
  {
    NamedIsFirst(directives, name);
    if DirectiveNamed(directives, name).Some? {
      var i: nat :| FirstDirective(directives, name, i) && DirectiveNamed(directives, name) == Some(directives[i]);
      assert forall j: nat | FirstDirective(directives, name, j) :: j == i;
      ArgumentIsFirst(directives[i].arguments, "if");
      ConditionOf(c, directives[i]);
    } else {
      forall i: nat ensures !FirstDirective(directives, name, i) {
        assert i < |directives| ==> directives[i] in directives;
      }
    }
  }

  lemma ConditionOf(c: Context, d: Directive)
    ensures forall b :: Condition(c, d) == Ok(b) <==>
              exists k: nat | FirstArgument(d.arguments, "if", k) ::
                c.evaluate(d.arguments[k].value, c.variables) == Some(Bool(b))
    ensures Condition(c, d) == Err(MissingCondition(d.name)) <==> forall a | a in d.arguments :: a.name != "if"
    ensures Condition(c, d) == Err(BadCondition(d.name)) <==>
              exists k: nat | FirstArgument(d.arguments, "if", k) ::
                forall b :: c.evaluate(d.arguments[k].value, c.variables) != Some(Bool(b))
  {
    ArgumentIsFirst(d.arguments, "if");
    if ArgumentNamed(d.arguments, "if").Some? {
      var k: nat :|
        FirstArgument(d.arguments, "if", k) && ArgumentNamed(d.arguments, "if") == Some(d.arguments[k].value);
      assert forall l: nat | FirstArgument(d.arguments, "if", l) :: l == k;
      assert d.arguments[k] in d.arguments;
      var value := c.evaluate(d.arguments[k].value, c.variables);
      assert (exists b :: value == Some(Bool(b))) <==> value.Some? && value.value.Bool?;
    } else {
      forall k: nat ensures !FirstArgument(d.arguments, "if", k) {
        assert k < |d.arguments| ==> d.arguments[k] in d.arguments;
      }
    }
  }

  lemma {:induction false} NamedIsFirst(directives: seq<Directive>, name: string)
    ensures DirectiveNamed(directives, name).None? <==> Absent(directives, name)
    ensures DirectiveNamed(directives, name).Some? ==>
              exists i: nat ::
                FirstDirective(directives, name, i) && DirectiveNamed(directives, name) == Some(directives[i])
  {
    if directives != [] {
      var rest := directives[1..];
      NamedIsFirst(rest, name);
      assert directives == [directives[0]] + rest;
      if directives[0].name == name {
        assert FirstDirective(directives, name, 0);
      } else if DirectiveNamed(rest, name).Some? {
        var i: nat :| FirstDirective(rest, name, i) && DirectiveNamed(rest, name) == Some(rest[i]);
        assert FirstDirective(directives, name, i + 1);
      }
    }
  }

  lemma {:induction false} ArgumentIsFirst(arguments: seq<Argument>, name: string)
    ensures ArgumentNamed(arguments, name).None? <==> forall a | a in arguments :: a.name != name
    ensures ArgumentNamed(arguments, name).Some? ==>
              exists k: nat ::
                FirstArgument(arguments, name, k) && ArgumentNamed(arguments, name) == Some(arguments[k].value)
  {
    if arguments != [] {
      var rest := arguments[1..];
      ArgumentIsFirst(rest, name);
      assert arguments == [arguments[0]] + rest;
      if arguments[0].name == name {
        assert FirstArgument(arguments, name, 0);
      } else if ArgumentNamed(rest, name).Some? {
        var k: nat :| FirstArgument(rest, name, k) && ArgumentNamed(rest, name) == Some(rest[k].value);
        assert FirstArgument(arguments, name, k + 1);
      }
    }
  }

  /** Objects of the type satisfy the condition. */
  predicate FragmentApplies(c: Context, objectType: string, typeCondition: string) {
    typeCondition in c.possibleTypes && objectType in c.possibleTypes[typeCondition]
  }

  // Argument values

  predicate HasValue(c: Context, value: Value) {
    value.VariableRef? ==> value.name in c.variables
  }

  /** The value of one argument: the one provided, or else the default. */
  function CoerceArgument(c: Context, def: ArgDef, provided: seq<Argument>): Result<Option<Json>, string> {
    var given := ArgumentNamed(provided, def.name);
    if given.Some? && HasValue(c, given.value) then Evaluated(c.evaluate(given.value, c.variables), def.name)
    else if def.default.Some? then Evaluated(c.evaluate(def.default.value, map[]), def.name)
    else Ok(None)
  }

  function Evaluated(value: Option<Json>, name: string): Result<Option<Json>, string> {
    if value.None? then Err(name) else Ok(value)
  }

  function CoerceArguments(c: Context, defs: seq<ArgDef>, provided: seq<Argument>): Result<map<string, Json>, string> {
    if defs == [] then Ok(map[])
    else
      var def := defs[|defs| - 1];
      var values :- CoerceArguments(c, defs[..|defs| - 1], provided);
      var value :- CoerceArgument(c, def, provided);
      Ok(if value.Some? then values[def.name := value.value] else values)
  }

  /** The query gives a value for the argument, first at the `k`-th place; a variable the request does not provide
      counts as left out. */
  predicate GivenAt(c: Context, provided: seq<Argument>, name: string, k: nat) {
    && FirstArgument(provided, name, k)
    && !(provided[k].value.VariableRef? && provided[k].value.name !in c.variables)
  }

  /** What the argument's value evaluates to: the query's, for the request's variables, or else the default's, for
      none. */
  ghost predicate Yields(c: Context, def: ArgDef, provided: seq<Argument>, value: Option<Json>) {
    if exists k: nat :: GivenAt(c, provided, def.name, k)
    then exists k: nat :: GivenAt(c, provided, def.name, k) && c.evaluate(provided[k].value, c.variables) == value
    else def.default.Some? && c.evaluate(def.default.value, map[]) == value
  }

  /** Arguments are exactly those that the query gives a value or the schema a default, with these values; they fail
      exactly when such a value cannot be evaluated. */
  lemma {:induction false} ArgumentPresent(c: Context, defs: seq<ArgDef>, provided: seq<Argument>)
    requires forall i, j | 0 <= i < j < |defs| :: defs[i].name != defs[j].name
    ensures var r := CoerceArguments(c, defs, provided);
            && (r.Ok? <==> forall def | def in defs :: !Yields(c, def, provided, None))
            && (r.Ok? ==> forall name, value :: name in r.value && r.value[name] == value <==>
                            exists def | def in defs :: def.name == name && Yields(c, def, provided, Some(value)))
  {
    if defs != [] {
      var n := |defs| - 1;
      ArgumentPresent(c, defs[..n], provided);
      CoercedYields(c, defs[n], provided);
      assert defs == defs[..n] + [defs[n]];
      assert forall def | def in defs[..n] :: def.name != defs[n].name;
    }
  }

  lemma CoercedYields(c: Context, def: ArgDef, provided: seq<Argument>)
    ensures var r := CoerceArgument(c, def, provided);
            && (r.Err? <==> Yields(c, def, provided, None))
            && (forall value :: r == Ok(Some(value)) <==> Yields(c, def, provided, Some(value)))
  {
    ArgumentIsFirst(provided, def.name);
    if k: nat :| FirstArgument(provided, def.name, k) {
      assert provided[k] in provided;
      assert forall l: nat | FirstArgument(provided, def.name, l) :: l == k;
      assert ArgumentNamed(provided, def.name) == Some(provided[k].value);
    }
  }
}
