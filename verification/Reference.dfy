/** Executing a consumer operation directly against the providers' own data, with no plan: each field is resolved where
    it stands, and values are completed as section 6.4 of the GraphQL specification (October 2021) says. */
module Reference {
  import opened Wrappers
  import opened Json
  import Paths
  import opened Fields
  import opened Arguments
  import opened Merge

  /** What each provider holds for a schema and arguments, or nothing when it cannot be reached. */
  type World = (string, seq<ProviderArgument>) -> Option<map<string, Json>>

  /** The arguments a field's provider is given, if they can be told. */
  type Supply = Field -> Option<seq<ProviderArgument>>

  /** All values, or nothing if any is missing. */
  function Gather<T>(values: seq<Option<T>>): Option<seq<T>> {
    if forall i | 0 <= i < |values| :: values[i].Some?
    then Some(seq(|values|, i requires 0 <= i < |values| && values[i].Some? => values[i].value))
    else None
  }

  /** Null where null is not allowed propagates. */
  function Guard(typ: TypeRef, value: Json): Option<Json> {
    if value == Null && typ.nonNull then None else Some(value)
  }

  /** The resolver of a sourced field: read the provider data, or the item, the field is declared in. */
  function Read(world: World, supply: Supply, f: Field, source: Scope): Json
    requires f.source.Some?
  {
    var info := f.source.value;
    match source
    case Within(item, declared) => ValueAt(item, Paths.Split(Paths.RelativePath(info.providerField, declared)))
    case Top =>
      match supply(f)
      case None => Null
      case Some(args) =>
        match world(info.schemaId, args)
        case None => Null
        case Some(data) => ValueAt(Object(data), Paths.Split(info.providerField))
  }

  /** A selection set: the values of its fields under their response keys, or nothing if one of them propagates. */
  function ExecuteSet(world: World, supply: Supply, fields: seq<Field>, objectType: string, source: Scope):
    Option<map<string, Json>>
    decreases fields, 0
  {
    if fields == [] then Some(map[])
    else
      var last := fields[|fields| - 1];
      match (ExecuteSet(world, supply, fields[..|fields| - 1], objectType, source),
             ExecuteField(world, supply, last, objectType, source))
      case (Some(members), Some(value)) => Some(members[last.responseKey := value])
      case _ => None
  }

  function ExecuteField(world: World, supply: Supply, f: Field, objectType: string, source: Scope): Option<Json>
    decreases f, 2
  {
    if f.IsTypename() then Some(Text(objectType))
    else Guard(f.definition.typ, Resolve(world, supply, f, source))
  }

  /** The field's value before the null check of its type. */
  function Resolve(world: World, supply: Supply, f: Field, source: Scope): Json
    decreases f, 1
  {
    if f.IsSourced() then
      var raw := Read(world, supply, f, source);
      if !f.IsObjectList() then raw
      else if !raw.List? then Null
      else
        match Gather(seq(|raw.items|, i requires 0 <= i < |raw.items| =>
                           CompleteItem(world, supply, f, raw.items[i])))
        case None => Null
        case Some(items) => List(items)
    else if f.selections == [] then Null
    else
      match ExecuteSet(world, supply, f.selections, f.definition.typ.BaseName(), source)
      case None => Null
      case Some(members) => Object(members)
  }

  function CompleteItem(world: World, supply: Supply, f: Field, item: Json): Option<Json>
    requires f.IsObjectList()
    decreases f, 0
  {
    var elem := f.definition.typ.elem;
    if item == Null then Guard(elem, Null)
    else
      match ExecuteSet(world, supply, f.selections, elem.BaseName(), Within(item, f.source.value.providerField))
      case None => Guard(elem, Null)
      case Some(members) => Some(Object(members))
  }
}
