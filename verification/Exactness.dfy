/** Federation preserves meaning exactly for the operations its main result covers: outside them, some provider's data
    is misread. */
module Exactness {
  import opened Wrappers
  import opened Json
  import opened Paths
  import opened Fields
  import opened Arguments
  import opened Selection
  import Printing
  import opened Plan
  import opened Merge
  import Nulls
  import opened Reference
  import opened Federation
  import Readability
  import opened Meaning
  import opened Fidelity

  /** A field that nothing can be read for allows null, and so does an object list. Type names, leaves that are read,
      objects and the items of lists may forbid it. */
  predicate Tolerant(fields: seq<Field>) {
    forall f | f in fields && !f.IsTypename() ::
      && (f.IsObjectList() || (!f.IsSourced() && f.selections == []) ==> !f.definition.typ.nonNull)
      && Tolerant(f.selections)
  }

  /** Whatever providers hold, and however they answer what is selected, the consumer gets what direct execution
      gives. */
  ghost predicate PreservesMeaning(marshal: Json -> string, bindings: seq<Binding>, fields: seq<Field>)
    requires PlanFor(marshal, bindings, fields).Ok?
  {
    var plan := PlanFor(marshal, bindings, fields).value;
    forall world: World, results | AllAnswered(plan, world, results) ::
      Merged(Env(plan, results), fields).data == ExecuteSet(world, Bound(bindings), fields, "Query", Top)
  }

  /** An operation keeps its meaning for all providers exactly when no provider operation requests a path below another
      and every object list is covered, provided that fields without a source and object lists are nullable: no null can
      then hide a misreading for all providers. */
  lemma PreservesIffPlannable(marshal: Json -> string, bindings: seq<Binding>, fields: seq<Field>)
    requires WellPlanned(marshal, bindings, fields)
    ensures Plannable(marshal, bindings, fields) ==> PreservesMeaning(marshal, bindings, fields)
    ensures Tolerant(fields) && PreservesMeaning(marshal, bindings, fields) ==> Plannable(marshal, bindings, fields)
  {
    var plan, entries := PlanFor(marshal, bindings, fields).value, Entries(bindings, fields).value;
    if Plannable(marshal, bindings, fields) {
      forall world: World, results | AllAnswered(plan, world, results)
        ensures Merged(Env(plan, results), fields).data == ExecuteSet(world, Bound(bindings), fields, "Query", Top)
      {
        FederationPreservesMeaning(marshal, bindings, fields, world, results);
      }
    } else if Tolerant(fields) {
      PlanServesEveryEntry(marshal, bindings, fields);
      Readability.ReadableIffRequested(marshal, bindings, fields);
      EntriesSourced(bindings, fields);
      var e :| e in entries && !ReadableFrom(SentTree(ServedBy(plan, e)), e.field);
      Misread(marshal, bindings, fields, e);
    }
  }

  // Data in which no read finds null

  /** The names of provider fields below which the operation reads. */
  function Names(fields: seq<Field>): set<string> {
    if fields == [] then {} else NamesOf(fields[0]) + Names(fields[0].selections) + Names(fields[1..])
  }

  function NamesOf(f: Field): set<string> {
    if f.source.Some? then set s | s in Split(f.source.value.providerField) else {}
  }

  predicate Named(names: set<string>, fields: seq<Field>) {
    forall f | f in fields :: NamesOf(f) <= names && Named(names, f.selections)
  }

  lemma {:induction false} NamedMore(names: set<string>, more: set<string>, fields: seq<Field>)
    requires Named(names, fields) && names <= more
    ensures Named(more, fields)
  {
    forall f | f in fields ensures Named(more, f.selections) {
      NamedMore(names, more, f.selections);
    }
  }

  lemma {:induction false} NamesCover(fields: seq<Field>)
    ensures Named(Names(fields), fields)
  {
    if fields != [] {
      NamesCover(fields[0].selections);
      NamesCover(fields[1..]);
      NamedMore(Names(fields[0].selections), Names(fields), fields[0].selections);
      NamedMore(Names(fields[1..]), Names(fields), fields[1..]);
      assert fields == [fields[0]] + fields[1..];
    }
  }

  function Filler(names: set<string>): map<string, Json> {
    map n | n in names :: List([])
  }

  /** Every object has a member under each of the names, and nothing but objects and lists is met below them. */
  predicate Rich(names: set<string>, data: Json) {
    match data
    case Object(members) => forall n | n in names :: n in members && Rich(names, members[n])
    case List(items) => forall i | 0 <= i < |items| :: Rich(names, items[i])
    case _ => false
  }

  lemma {:induction false} RichRead(names: set<string>, data: Json, path: seq<string>)
    requires Rich(names, data) && forall s | s in path :: s in names
    ensures Rich(names, ValueAt(data, path))
    decreases |path|, data
  {
    if path != [] {
      match data {
        case Object(members) =>
          assert path[0] in path;
          assert forall s | s in path[1..] :: s in path;
          RichRead(names, members[path[0]], path[1..]);
        case List(items) =>
          forall i | 0 <= i < |items| ensures Rich(names, ValueAt(items[i], path)) {
            RichRead(names, items[i], path);
          }
      }
    }
  }

  lemma {:induction false} RichChain(names: set<string>, path: seq<string>, value: Json)
    requires Rich(names, value)
    ensures Rich(names, Chain(Filler(names), path, value))
  {
    if path != [] {
      RichChain(names, path[1..], value);
      assert Rich(names, List([]));
    }
  }

  /** What is read for a field from rich data is not null. */
  lemma RichField(names: set<string>, f: Field, data: Json)
    requires Rich(names, data) && f.source.Some? && NamesOf(f) <= names
    ensures ValueAt(data, Split(f.source.value.providerField)) != Null
  {
    forall s | s in Split(f.source.value.providerField) ensures s in names {
      assert s in NamesOf(f);
    }
    RichRead(names, data, Split(f.source.value.providerField));
  }

  lemma RichScoped(names: set<string>, f: Field, item: Json, declared: string)
    requires Rich(names, item) && f.source.Some? && NamesOf(f) <= names
    ensures ValueAt(item, Split(RelativePath(f.source.value.providerField, declared))) != Null
  {
    var relative := Split(RelativePath(f.source.value.providerField, declared));
    RelativePathSegments(f.source.value.providerField, declared);
    forall s | s in relative ensures s in names {
      assert s in NamesOf(f);
    }
    RichRead(names, item, relative);
  }

  /** All providers hold rich data, or the item is rich. */
  ghost predicate RichIn(names: set<string>, world: World, source: Scope) {
    match source
    case Within(item, _) => Rich(names, item)
    case Top => RichWorld(names, world)
  }

  ghost predicate RichWorld(names: set<string>, world: World) {
    forall schemaId, args :: world(schemaId, args).Some? && Rich(names, Object(world(schemaId, args).value))
  }

  /** On rich data direct execution has no null to propagate. */
  lemma {:induction false} RichExecuted(names: set<string>, world: World, bindings: seq<Binding>, fields: seq<Field>,
                                        typeName: string, source: Scope)
    requires Tolerant(fields) && Named(names, fields) && RichIn(names, world, source)
    requires source.Top? ==> Entries(bindings, fields).Ok?
    ensures ExecuteSet(world, Bound(bindings), fields, typeName, source).Some?
    decreases fields, 0
  {
    forall f | f in fields ensures ExecuteField(world, Bound(bindings), f, typeName, source).Some? {
      if source.Top? {
        EntriesMember(bindings, fields, f);
      }
      RichFieldExecuted(names, world, bindings, f, typeName, source);
    }
    AllExecuted(world, bindings, fields, typeName, source);
  }

  lemma {:induction false} RichFieldExecuted(names: set<string>, world: World, bindings: seq<Binding>, f: Field,
                                             typeName: string, source: Scope)
    requires Tolerant([f]) && NamesOf(f) <= names && Named(names, f.selections)
    requires RichIn(names, world, source) && (source.Top? ==> EntriesOf(bindings, f).Ok?)
    ensures ExecuteField(world, Bound(bindings), f, typeName, source).Some?
    decreases f, 1
  {
    assert f in [f];
    if f.IsTypename() {
    } else if f.IsSourced() {
      if !f.IsObjectList() {
        RichLeafRead(names, world, bindings, f, source);
      }
    } else if f.selections != [] {
      RichExecuted(names, world, bindings, f.selections, f.definition.typ.BaseName(), source);
    }
  }

  lemma RichLeafRead(names: set<string>, world: World, bindings: seq<Binding>, f: Field, source: Scope)
    requires f.source.Some? && NamesOf(f) <= names
    requires RichIn(names, world, source) && (source.Top? ==> ArgumentsFor(bindings, f).Ok?)
    ensures Read(world, Bound(bindings), f, source) != Null
  {
    if source.Within? {
      RichScoped(names, f, source.item, source.declared);
    } else {
      var data := world(f.source.value.schemaId, ArgumentsFor(bindings, f).value);
      RichField(names, f, Object(data.value));
    }
  }

  lemma {:induction false} AllExecuted(world: World, bindings: seq<Binding>, fields: seq<Field>, typeName: string,
                                       source: Scope)
    requires forall f | f in fields :: ExecuteField(world, Bound(bindings), f, typeName, source).Some?
    ensures ExecuteSet(world, Bound(bindings), fields, typeName, source).Some?
    decreases |fields|
  {
    if fields != [] {
      AllExecuted(world, bindings, fields[..|fields| - 1], typeName, source);
    }
  }

  // A rich witness for every position that cannot be read

  /** An item in which one of `fields` is misread. */
  function Witness(names: set<string>, node: Node, fields: seq<Field>, declared: string): (item: Json)
    requires !Readable(node, fields, declared)
    ensures Rich(names, item)
    decreases fields, 0
  {
    if !Readable(node, [fields[0]], declared) then FieldWitness(names, node, fields[0], declared)
    else Witness(names, node, fields[1..], declared)
  }

  function FieldWitness(names: set<string>, node: Node, f: Field, declared: string): (item: Json)
    requires !Readable(node, [f], declared)
    ensures Rich(names, item)
    decreases f, 1
  {
    assert !f.IsTypename();
    if f.IsSourced() then
      var relative := Split(RelativePath(f.source.value.providerField, declared));
      var value := if Reaches(node, relative) then ValueWitness(names, Reached(node, relative), f) else List([]);
      RichChain(names, relative, value);
      Chain(Filler(names), relative, value)
    else Witness(names, node, f.selections, declared)
  }

  /** A value of the field that is misread: one that is cut down, or a list with such an item. */
  function ValueWitness(names: set<string>, node: Node, f: Field): (value: Json)
    requires f.IsSourced() && !ReadableAt(node, f)
    ensures Rich(names, value)
    decreases f, 0
  {
    if f.IsObjectList() then List([Witness(names, node, f.selections, f.source.value.providerField)])
    else
      assert Rich(names, List([]));
      Extra(Filler(names), node)
  }

  /** Data from which the field is misread. */
  function DataWitness(names: set<string>, root: Node, f: Field): (data: map<string, Json>)
    requires f.IsSourced() && !ReadableFrom(root, f)
    ensures Rich(names, Object(data))
  {
    var path := Split(f.source.value.providerField);
    var value := if RootReaches(root, path) then ValueWitness(names, RootReached(root, path), f) else List([]);
    RichChain(names, path, value);
    Chain(Filler(names), path, value).members
  }

  lemma WitnessField(names: set<string>, node: Node, fields: seq<Field>, declared: string) returns (f: Field)
    requires !Readable(node, fields, declared)
    ensures f in fields && !Readable(node, [f], declared)
    ensures Witness(names, node, fields, declared) == FieldWitness(names, node, f, declared)
    decreases fields
  {
    if !Readable(node, [fields[0]], declared) {
      f := fields[0];
    } else {
      f := WitnessField(names, node, fields[1..], declared);
    }
  }

  lemma {:induction false} LeafReadable(node: Node, fields: seq<Field>, declared: string)
    requires node.children == []
    ensures Readable(node, fields, declared)
    decreases fields
  {
    forall f | f in fields && !f.IsTypename() ensures Readable(node, f.selections, declared) &&
        (f.source.Some? ==> Readable(node, f.selections, f.source.value.providerField))
    {
      LeafReadable(node, f.selections, declared);
      if f.source.Some? {
        LeafReadable(node, f.selections, f.source.value.providerField);
      }
    }
  }

  lemma {:induction false} ReachedDistinct(node: Node, path: seq<string>)
    requires Distinct(node) && Reaches(node, path)
    ensures Distinct(Reached(node, path))
    decreases |path|
  {
    if path != [] && node.children != [] {
      ReachedDistinct(node.children[node.Index(path[0])], path[1..]);
    }
  }

  // The witnesses are misread

  /** The field can be planned for, its names are among `names`, and its response keys can be told apart. */
  predicate Regular(names: set<string>, fields: seq<Field>) {
    Tolerant(fields) && Named(names, fields) && Nulls.KeysDistinct(fields)
  }

  lemma {:induction false} SetMisread(names: set<string>, env: Env, world: World, bindings: seq<Binding>,
                                      fields: seq<Field>, typeName: string, node: Node, declared: string,
                                      path: seq<Segment>)
    requires Distinct(node) && !Readable(node, fields, declared) && Regular(names, fields)
    ensures var item := Witness(names, node, fields, declared);
            var direct := ExecuteSet(world, Bound(bindings), fields, typeName, Within(item, declared));
            direct.Some? &&
            !SameObject(MergeObject(env, fields, typeName, Within(Project(node, item), declared), path), direct)
    decreases fields, 0
  {
    var f := WitnessField(names, node, fields, declared);
    var item := Witness(names, node, fields, declared);
    RichExecuted(names, world, bindings, fields, typeName, Within(item, declared));
    FieldMisread(names, env, world, bindings, f, typeName, node, declared, path);
    MemberDiffers(env, world, bindings, fields, f, typeName, Within(Project(node, item), declared),
                  Within(item, declared), path);
  }

  lemma {:induction false} FieldMisread(names: set<string>, env: Env, world: World, bindings: seq<Binding>, f: Field,
                                        typeName: string, node: Node, declared: string, path: seq<Segment>)
    requires Distinct(node) && !Readable(node, [f], declared) && !f.IsTypename()
    requires Tolerant([f]) && Regular(names, f.selections)
    ensures var item := FieldWitness(names, node, f, declared);
            !SameValue(MergeValue(env, f, typeName, Within(Project(node, item), declared), path),
                       ExecuteField(world, Bound(bindings), f, typeName, Within(item, declared)))
    decreases f, 2
  {
    if f.IsSourced() {
      SourcedMisread(names, env, world, bindings, f, typeName, node, declared, path);
    } else {
      var item := FieldWitness(names, node, f, declared);
      SetMisread(names, env, world, bindings, f.selections, f.definition.typ.BaseName(), node, declared,
                 path + [Member(f.responseKey)]);
      ObjectMisread(env, world, bindings, f, typeName, Within(Project(node, item), declared), Within(item, declared),
                    path);
    }
  }

  lemma ObjectMisread(env: Env, world: World, bindings: seq<Binding>, f: Field, typeName: string, merging: Scope,
                      direct: Scope, path: seq<Segment>)
    requires !f.IsTypename() && !f.IsSourced() && f.selections != []
    requires var held := ExecuteSet(world, Bound(bindings), f.selections, f.definition.typ.BaseName(), direct);
             held.Some? && !SameObject(MergeObject(env, f.selections, f.definition.typ.BaseName(), merging,
                                                   path + [Member(f.responseKey)]), held)
    ensures !SameValue(MergeValue(env, f, typeName, merging, path),
                       ExecuteField(world, Bound(bindings), f, typeName, direct))
  {
  }

  lemma {:induction false} SourcedMisread(names: set<string>, env: Env, world: World, bindings: seq<Binding>, f: Field,
                                          typeName: string, node: Node, declared: string, path: seq<Segment>)
    requires f.IsSourced()
    requires Distinct(node) && !Readable(node, [f], declared) && Tolerant([f]) && Regular(names, f.selections)
    ensures var item := FieldWitness(names, node, f, declared);
            !SameValue(MergeValue(env, f, typeName, Within(Project(node, item), declared), path),
                       ExecuteField(world, Bound(bindings), f, typeName, Within(item, declared)))
    decreases f, 1, 1
  {
    var here := path + [Member(f.responseKey)];
    var relative := Split(RelativePath(f.source.value.providerField, declared));
    if Reaches(node, relative) {
      var inner := Reached(node, relative);
      ProjectChain(Filler(names), node, relative, ValueWitness(names, inner, f));
      ReachedDistinct(node, relative);
      ValueMisread(names, env, world, bindings, f, inner, here);
    } else {
      NotReached(Filler(names), node, relative, List([]));
      EmptyListMisread(env, world, bindings, f, here);
    }
  }

  lemma EmptyListMisread(env: Env, world: World, bindings: seq<Binding>, f: Field, here: seq<Segment>)
    requires f.IsSourced()
    ensures !SameValue(MergeSourced(env, f, Null, here),
                       Guard(f.definition.typ, ResolveRaw(world, bindings, f, List([]))))
  {
    if f.IsObjectList() {
      assert CompleteItems(world, bindings, f, []) == [];
    }
  }

  lemma {:induction false} ValueMisread(names: set<string>, env: Env, world: World, bindings: seq<Binding>, f: Field,
                                        node: Node, here: seq<Segment>)
    requires f.IsSourced() && Distinct(node) && !ReadableAt(node, f) && Regular(names, f.selections)
    ensures var full := ValueWitness(names, node, f);
            !SameValue(MergeSourced(env, f, Project(node, full), here),
                       Guard(f.definition.typ, ResolveRaw(world, bindings, f, full)))
    decreases f, 1, 0
  {
    if f.IsObjectList() {
      ListMisread(names, env, world, bindings, f, node, here);
    } else {
      ExtraIsCut(Filler(names), node);
    }
  }

  lemma {:induction false} ListMisread(names: set<string>, env: Env, world: World, bindings: seq<Binding>, f: Field,
                                       node: Node, here: seq<Segment>)
    requires f.IsObjectList() && Distinct(node) && !ReadableAt(node, f) && Regular(names, f.selections)
    ensures var full := ValueWitness(names, node, f);
            !SameValue(MergeSourced(env, f, Project(node, full), here),
                       Guard(f.definition.typ, ResolveRaw(world, bindings, f, full)))
    decreases f, 0
  {
    var declared, elem := f.source.value.providerField, f.definition.typ.elem.BaseName();
    var item := Witness(names, node, f.selections, declared);
    if node.children == [] {
      LeafReadable(node, f.selections, declared);
    }
    var raw := Project(node, List([item])).items;
    assert raw == [Project(node, item)] && raw[0] != Null;
    SetMisread(names, env, world, bindings, f.selections, elem, node, declared, here + [Index(0)]);
    var held := ExecuteSet(world, Bound(bindings), f.selections, elem, Within(item, declared)).value;
    assert CompleteItems(world, bindings, f, [item]) == [Some(Object(held))];
    GatherOne(Object(held));
    assert MergeItems(env, f, raw, 1, here) == ItemsOut([], false, []);
    var merged := MergeItem(env, f, raw[0], here + [Index(0)]);
    assert merged.failed || merged.value != Object(held);
    assert !merged.failed ==> MergeItems(env, f, raw, 0, here).items == [merged.value];
    assert [merged.value][0] != [Object(held)][0] || merged.failed;
  }

  // A misread member shows in the object

  lemma {:induction false} MemberDiffers(env: Env, world: World, bindings: seq<Binding>, fields: seq<Field>, f: Field,
                                         typeName: string, merging: Scope, direct: Scope, path: seq<Segment>)
    requires f in fields && Nulls.KeysDistinct(fields)
    requires ExecuteSet(world, Bound(bindings), fields, typeName, direct).Some?
    requires !SameValue(MergeValue(env, f, typeName, merging, path),
                        ExecuteField(world, Bound(bindings), f, typeName, direct))
    ensures !SameObject(MergeObject(env, fields, typeName, merging, path),
                        ExecuteSet(world, Bound(bindings), fields, typeName, direct))
  {
    if !MergeObject(env, fields, typeName, merging, path).failed {
      MergedMembers(env, fields, typeName, merging, path);
    }
    ExecutedMembers(world, bindings, fields, typeName, direct);
  }

  lemma {:induction false} MergedMembers(env: Env, fields: seq<Field>, typeName: string, scope: Scope,
                                         path: seq<Segment>)
    requires Nulls.KeysDistinct(fields) && !MergeObject(env, fields, typeName, scope, path).failed
    ensures var o := MergeObject(env, fields, typeName, scope, path);
            && o.members.Keys == (set f | f in fields :: f.responseKey)
            && forall f | f in fields :: var v := MergeValue(env, f, typeName, scope, path);
                                         !v.failed && o.members[f.responseKey] == v.value
    decreases |fields|
  {
    if fields != [] {
      var first, rest := fields[0], fields[1..];
      assert first in fields;
      assert forall i | 0 <= i < |rest| :: rest[i] == fields[i + 1];
      MergedMembers(env, rest, typeName, scope, path);
      Nulls.MembersJoin(fields, MergeValue(env, first, typeName, scope, path).value,
                        MergeObject(env, rest, typeName, scope, path).members,
                        MergeObject(env, fields, typeName, scope, path).members);
    }
  }

  lemma {:induction false} ExecutedMembers(world: World, bindings: seq<Binding>, fields: seq<Field>, typeName: string,
                                           source: Scope)
    requires Nulls.KeysDistinct(fields) && ExecuteSet(world, Bound(bindings), fields, typeName, source).Some?
    ensures forall f | f in fields :: var members := ExecuteSet(world, Bound(bindings), fields, typeName, source).value;
              f.responseKey in members &&
              Some(members[f.responseKey]) == ExecuteField(world, Bound(bindings), f, typeName, source)
    decreases |fields|
  {
    if fields != [] {
      var front, last := fields[..|fields| - 1], fields[|fields| - 1];
      assert fields == front + [last] && last in fields;
      assert forall i | 0 <= i < |front| :: front[i] == fields[i];
      ExecutedMembers(world, bindings, front, typeName, source);
      assert ExecuteSet(world, Bound(bindings), fields, typeName, source) ==
             Some(ExecuteSet(world, Bound(bindings), front, typeName, source).value[last.responseKey :=
                    ExecuteField(world, Bound(bindings), last, typeName, source).value]);
    }
  }

  // The whole operation

  /** The provider of `f` holds `data`, all others rich data without anything to misread. */
  function Holding(f: FetchView, data: map<string, Json>, names: set<string>): World {
    (schemaId, args) => Some(if schemaId == f.schemaId && args == f.args then data else Filler(names))
  }

  function KeysOf(plan: PlanView): set<string> {
    set g | g in plan.fetches :: g.key
  }

  /** Every provider answers what is selected of its data. */
  function Answering(plan: PlanView, world: World): map<string, FetchResult> {
    map key | key in KeysOf(plan) :: AnswerTo(plan.fetches, world, key)
  }

  function AnswerTo(fetches: seq<FetchView>, world: World, key: string): FetchResult {
    var k := IndexOf(fetches, key);
    if k < |fetches| && world(fetches[k].schemaId, fetches[k].args).Some?
    then Answered(ProjectRoot(SentTree(fetches[k]), world(fetches[k].schemaId, fetches[k].args).value), [])
    else Failed
  }

  lemma WitnessAnswered(marshal: Json -> string, plan: PlanView, world: World)
    requires Keyed(marshal, plan)
    ensures AllAnswered(plan, world, Answering(plan, world))
    ensures forall g | g in plan.fetches ::
              g.key in Answering(plan, world) && IndexOf(plan.fetches, g.key) < |plan.fetches| &&
              plan.fetches[IndexOf(plan.fetches, g.key)] == g
  {
    forall g | g in plan.fetches
      ensures g.key in KeysOf(plan) && IndexOf(plan.fetches, g.key) < |plan.fetches|
      ensures plan.fetches[IndexOf(plan.fetches, g.key)] == g && Answers(g, world, AnswerTo(plan.fetches, world, g.key))
    {
      var k :| 0 <= k < |plan.fetches| && plan.fetches[k] == g;
      FirstKey(plan.fetches, g.key, k);
      Printing.PrintedTreeDistinct(g.fields, g.args);
      if world(g.schemaId, g.args).Some? {
        ProjectRootCovers(SentTree(g), world(g.schemaId, g.args).value);
      }
    }
  }

  lemma HoldingIsRich(names: set<string>, f: FetchView, data: map<string, Json>)
    requires Rich(names, Object(data))
    ensures RichWorld(names, Holding(f, data, names))
  {
    assert Rich(names, List([]));
    assert Rich(names, Object(Filler(names)));
  }

  lemma Misread(marshal: Json -> string, bindings: seq<Binding>, fields: seq<Field>, e: Entry)
    requires WellPlanned(marshal, bindings, fields) && Tolerant(fields)
    requires e in Entries(bindings, fields).value && e.field.IsSourced()
    requires Serves(PlanFor(marshal, bindings, fields).value, e)
    requires !ReadableFrom(SentTree(ServedBy(PlanFor(marshal, bindings, fields).value, e)), e.field)
    ensures !PreservesMeaning(marshal, bindings, fields)
  {
    var plan, names := PlanFor(marshal, bindings, fields).value, Names(fields);
    var f := ServedBy(plan, e);
    var data := DataWitness(names, SentTree(f), e.field);
    var world := Holding(f, data, names);
    var results := Answering(plan, world);
    PlanServesEveryEntry(marshal, bindings, fields);
    assert f in plan.fetches;
    WitnessAnswered(marshal, plan, world);
    HoldingIsRich(names, f, data);
    NamesCover(fields);
    Nulls.WellShapedKeysDistinct(fields, []);
    Printing.PrintedTreeDistinct(f.fields, f.args);
    TopMisread(names, Env(plan, results), world, bindings, fields, e, SentTree(f), "Query", []);
    assert Merged(Env(plan, results), fields).data != ExecuteSet(world, Bound(bindings), fields, "Query", Top);
  }

  lemma {:induction false} TopMisread(names: set<string>, env: Env, world: World, bindings: seq<Binding>,
                                      fields: seq<Field>, e: Entry, root: Node, typeName: string, path: seq<Segment>)
    requires Entries(bindings, fields).Ok? && e in Entries(bindings, fields).value
    requires Regular(names, fields) && RichWorld(names, world)
    requires Distinct(root) && e.field.IsSourced() && !ReadableFrom(root, e.field)
    requires Reading(names, env, world, e, root)
    ensures var direct := ExecuteSet(world, Bound(bindings), fields, typeName, Top);
            direct.Some? && !SameObject(MergeObject(env, fields, typeName, Top, path), direct)
    decreases fields
  {
    var f := EntryField(bindings, fields, e);
    RichExecuted(names, world, bindings, fields, typeName, Top);
    if f.IsSourced() {
      EntryMisread(names, env, world, bindings, e, root, typeName, path);
    } else {
      TopMisread(names, env, world, bindings, f.selections, e, root, f.definition.typ.BaseName(),
                 path + [Member(f.responseKey)]);
      ObjectMisread(env, world, bindings, f, typeName, Top, Top, path);
    }
    MemberDiffers(env, world, bindings, fields, f, typeName, Top, Top, path);
  }

  /** The provider holds the witness for the field, and has answered what the operation selects of it. */
  ghost predicate Reading(names: set<string>, env: Env, world: World, e: Entry, root: Node)
    requires e.field.IsSourced() && !ReadableFrom(root, e.field)
  {
    var data := DataWitness(names, root, e.field);
    && ResultFor(env, e.field) == Answered(ProjectRoot(root, data), [])
    && world(e.field.source.value.schemaId, e.args) == Some(data)
  }

  lemma {:induction false} EntryField(bindings: seq<Binding>, fields: seq<Field>, e: Entry) returns (f: Field)
    requires Entries(bindings, fields).Ok? && e in Entries(bindings, fields).value
    ensures f in fields && EntriesOf(bindings, f).Ok? && e in EntriesOf(bindings, f).value
    decreases |fields|
  {
    if e in EntriesOf(bindings, fields[0]).value {
      f := fields[0];
    } else {
      f := EntryField(bindings, fields[1..], e);
    }
  }

  lemma EntryMisread(names: set<string>, env: Env, world: World, bindings: seq<Binding>, e: Entry, root: Node,
                     typeName: string, path: seq<Segment>)
    requires e.field.IsSourced() && EntriesOf(bindings, e.field).Ok? && e in EntriesOf(bindings, e.field).value
    requires Regular(names, e.field.selections)
    requires Distinct(root) && !ReadableFrom(root, e.field) && Reading(names, env, world, e, root)
    ensures !SameValue(MergeValue(env, e.field, typeName, Top, path),
                       ExecuteField(world, Bound(bindings), e.field, typeName, Top))
  {
    var f, here := e.field, path + [Member(e.field.responseKey)];
    var provider := Split(f.source.value.providerField);
    if RootReaches(root, provider) {
      var inner := RootReached(root, provider);
      ProjectRootChain(Filler(names), root, provider, ValueWitness(names, inner, f));
      ReachedDistinct(root.children[root.Index(provider[0])], provider[1..]);
      ValueMisread(names, env, world, bindings, f, inner, here);
    } else {
      NotReachedRoot(Filler(names), root, provider, List([]));
      EmptyListMisread(env, world, bindings, f, here);
    }
  }
}
