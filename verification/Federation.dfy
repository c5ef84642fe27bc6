/** Splitting an operation across providers and merging their answers preserves its meaning. */
module Federation {
  import opened Wrappers
  import opened Json
  import opened Paths
  import opened Fields
  import opened Arguments
  import opened Selection
  import Printing
  import opened Plan
  import opened Merge
  import opened Reference

  /** The arguments that planning gives a field's provider operation. */
  function Bound(bindings: seq<Binding>): Supply {
    (f: Field) =>
      if f.source.Some? && ArgumentsFor(bindings, f).Ok? then Some(ArgumentsFor(bindings, f).value) else None
  }

  /** Some field below is read from a provider. */
  predicate ReadsSomething(fields: seq<Field>) {
    exists f | f in fields :: !f.IsTypename() && ((f.IsSourced() && !f.IsObjectList()) || ReadsSomething(f.selections))
  }

  /** Every object list read from a provider has a sourced leaf below it, so that something of it is requested. */
  predicate ListsReadSomething(fields: seq<Field>) {
    forall f | f in fields :: (f.IsObjectList() ==> ReadsSomething(f.selections)) && ListsReadSomething(f.selections)
  }

  /** Where `node` is what an operation selects of the items of the list declared at `declared`: reading `fields` from
      an item leads to whole values, and to lists whose items are read in turn. */
  predicate Readable(node: Node, fields: seq<Field>, declared: string)
    decreases fields
  {
    forall f | f in fields && !f.IsTypename() ::
      if f.IsSourced() then
        var relative := Split(RelativePath(f.source.value.providerField, declared));
        Reaches(node, relative) && ReadableAt(Reached(node, relative), f)
      else Readable(node, f.selections, declared)
  }

  predicate ReadableAt(node: Node, f: Field)
    requires f.IsSourced()
    decreases f
  {
    if f.IsObjectList() then Readable(node, f.selections, f.source.value.providerField) else node.children == []
  }

  /** So does reading a field from an answer to the whole operation. */
  predicate ReadableFrom(root: Node, f: Field)
    requires f.IsSourced()
  {
    var path := Split(f.source.value.providerField);
    RootReaches(root, path) && ReadableAt(RootReached(root, path), f)
  }

  /** The selection tree as it is sent to the provider. */
  function SentTree(f: FetchView): Node {
    Printing.PrintArguments(Tree(f.fields), f.args).root
  }

  /** The field can be read from answers to the operation that serves it, and the result of that operation holds what
      the provider holds, wherever the operation selects it. */
  ghost predicate AnsweredFaithfully(env: Env, world: World, e: Entry) {
    && Serves(env.plan, e) && e.field.IsSourced()
    && var f := ServedBy(env.plan, e);
       && ReadableFrom(SentTree(f), e.field)
       && match world(f.schemaId, f.args)
          case None => f.key in env.results && env.results[f.key].Failed?
          case Some(data) =>
            && f.key in env.results && env.results[f.key].Answered?
            && CoversRoot(SentTree(f), data, env.results[f.key].data)
  }

  /** The scope merging reads from holds what the scope of direct execution holds, as far as `node` selects it. */
  ghost predicate Aligned(env: Env, world: World, bindings: seq<Binding>, fields: seq<Field>, merging: Scope,
                          direct: Scope, node: Node)
  {
    match (merging, direct)
    case (Top, Top) =>
      && Entries(bindings, fields).Ok?
      && forall e | e in Entries(bindings, fields).value :: AnsweredFaithfully(env, world, e)
    case (Within(answer, declared), Within(full, declared')) =>
      declared == declared' && Covers(node, full, answer) && Readable(node, fields, declared)
    case _ => false
  }

  // What is requested below a list

  lemma {:induction false} ScopedPathsBelow(fields: seq<Field>, declared: string, at: string)
    requires ScopedPaths(fields, declared, at).Ok?
    ensures forall p | p in ScopedPaths(fields, declared, at).value :: Split(at) < Split(p)
    decreases fields, 0
  {
    if fields != [] {
      ScopedPathBelow(fields[0], declared, at);
      ScopedPathsBelow(fields[1..], declared, at);
    }
  }

  lemma {:induction false} ScopedPathBelow(f: Field, declared: string, at: string)
    requires ScopedPath(f, declared, at).Ok?
    ensures forall p | p in ScopedPath(f, declared, at).value :: Split(at) < Split(p)
    decreases f, 1
  {
    if f.IsTypename() {
    } else if f.IsSourced() {
      var relative := RelativePath(f.source.value.providerField, declared);
      SplitDotted(at, relative);
      if f.IsObjectList() {
        ScopedPathsBelow(f.selections, f.source.value.providerField, at + "." + relative);
      }
    } else {
      ScopedPathsBelow(f.selections, declared, at);
    }
  }

  lemma {:induction false} ScopedPathsNonempty(fields: seq<Field>, declared: string, at: string)
    requires ScopedPaths(fields, declared, at).Ok? && ReadsSomething(fields)
    ensures ScopedPaths(fields, declared, at).value != []
    decreases fields, 0
  {
    var f :| f in fields && !f.IsTypename() && ((f.IsSourced() && !f.IsObjectList()) || ReadsSomething(f.selections));
    if f == fields[0] {
      ScopedPathNonempty(f, declared, at);
    } else {
      assert fields == [fields[0]] + fields[1..];
      assert f in fields[1..];
      ScopedPathsNonempty(fields[1..], declared, at);
    }
  }

  lemma {:induction false} ScopedPathNonempty(f: Field, declared: string, at: string)
    requires ScopedPath(f, declared, at).Ok? && !f.IsTypename()
    requires (f.IsSourced() && !f.IsObjectList()) || ReadsSomething(f.selections)
    ensures ScopedPath(f, declared, at).value != []
    decreases f, 1
  {
    if f.IsObjectList() {
      var provider := f.source.value.providerField;
      ScopedPathsNonempty(f.selections, provider, at + "." + RelativePath(provider, declared));
    } else if !f.IsSourced() {
      ScopedPathsNonempty(f.selections, declared, at);
    }
  }

  // Fields of a selection set stay aligned

  lemma {:induction false} EntriesMember(bindings: seq<Binding>, fields: seq<Field>, f: Field)
    requires Entries(bindings, fields).Ok? && f in fields
    ensures EntriesOf(bindings, f).Ok?
    ensures forall e | e in EntriesOf(bindings, f).value :: e in Entries(bindings, fields).value
    decreases |fields|
  {
    if f != fields[0] {
      assert fields == [fields[0]] + fields[1..];
      EntriesMember(bindings, fields[1..], f);
    }
  }

  lemma {:induction false} ScopedPathsMember(fields: seq<Field>, declared: string, at: string, f: Field)
    requires ScopedPaths(fields, declared, at).Ok? && f in fields
    ensures ScopedPath(f, declared, at).Ok?
    ensures forall p | p in ScopedPath(f, declared, at).value :: p in ScopedPaths(fields, declared, at).value
    decreases |fields|
  {
    if f != fields[0] {
      assert fields == [fields[0]] + fields[1..];
      ScopedPathsMember(fields[1..], declared, at, f);
    }
  }

  /** The alignment a single field needs. */
  ghost predicate FieldAligned(env: Env, world: World, bindings: seq<Binding>, f: Field, merging: Scope, direct: Scope,
                               node: Node)
  {
    match (merging, direct)
    case (Top, Top) =>
      && EntriesOf(bindings, f).Ok?
      && forall e | e in EntriesOf(bindings, f).value :: AnsweredFaithfully(env, world, e)
    case (Within(answer, declared), Within(full, declared')) =>
      declared == declared' && Covers(node, full, answer) && Readable(node, [f], declared)
    case _ => false
  }

  lemma AlignedMember(env: Env, world: World, bindings: seq<Binding>, fields: seq<Field>, f: Field, merging: Scope,
                      direct: Scope, node: Node)
    requires Aligned(env, world, bindings, fields, merging, direct, node) && f in fields
    ensures FieldAligned(env, world, bindings, f, merging, direct, node)
  {
    if merging.Top? {
      EntriesMember(bindings, fields, f);
    }
  }

  /** What was read for the field is the provider's own as far as `node` selects it, and can be read on. */
  ghost predicate RawAligned(f: Field, raw: Json, full: Json, node: Node) {
    f.IsSourced() && Covers(node, full, raw) && ReadableAt(node, f)
  }

  lemma ScopedRaw(env: Env, world: World, bindings: seq<Binding>, f: Field, answer: Json, full: Json, declared: string,
                  node: Node)
    requires FieldAligned(env, world, bindings, f, Within(answer, declared), Within(full, declared), node)
    requires f.IsSourced()
    ensures var relative := Split(RelativePath(f.source.value.providerField, declared));
            Reaches(node, relative) &&
            RawAligned(f, ValueAt(answer, relative), ValueAt(full, relative), Reached(node, relative))
  {
    assert f in [f];
    ReadReached(node, full, answer, Split(RelativePath(f.source.value.providerField, declared)));
  }

  lemma TopRaw(env: Env, world: World, bindings: seq<Binding>, f: Field, node: Node)
    requires FieldAligned(env, world, bindings, f, Top, Top, node) && f.IsSourced()
    ensures ResultFor(env, f).Failed? ==> Read(world, Bound(bindings), f, Top) == Null
    ensures ResultFor(env, f).Answered? ==>
              exists inner ::
                RawAligned(f, ValueAt(Object(ResultFor(env, f).data), Split(f.source.value.providerField)),
                           Read(world, Bound(bindings), f, Top), inner)
  {
    var path := Split(f.source.value.providerField);
    var e := EntriesOf(bindings, f).value[0];
    assert e in EntriesOf(bindings, f).value;
    var fetch := ServedBy(env.plan, e);
    if world(fetch.schemaId, fetch.args).Some? {
      var data, answer := world(fetch.schemaId, fetch.args).value, env.results[fetch.key].data;
      ReadReachedRoot(SentTree(fetch), data, answer, path);
      assert RawAligned(f, ValueAt(Object(answer), path), Read(world, Bound(bindings), f, Top),
                        RootReached(SentTree(fetch), path));
    }
  }

  // Merging computes what direct execution computes

  predicate SameObject(o: ObjectOut, r: Option<map<string, Json>>) {
    if o.failed then r == None else r == Some(o.members)
  }

  predicate SameValue(o: ValueOut, r: Option<Json>) {
    if o.failed then r == None else r == Some(o.value)
  }

  lemma {:induction false} SetsAgree(env: Env, world: World, bindings: seq<Binding>, fields: seq<Field>,
                                     typeName: string, merging: Scope, direct: Scope, node: Node, path: seq<Segment>)
    requires Aligned(env, world, bindings, fields, merging, direct, node)
    ensures SameObject(MergeObject(env, fields, typeName, merging, path),
                       ExecuteSet(world, Bound(bindings), fields, typeName, direct))
    decreases fields, 0
  {
    forall f | f in fields
      ensures SameValue(MergeValue(env, f, typeName, merging, path),
                        ExecuteField(world, Bound(bindings), f, typeName, direct))
    {
      AlignedMember(env, world, bindings, fields, f, merging, direct, node);
      FieldsAgree(env, world, bindings, f, typeName, merging, direct, node, path);
    }
    FoldsAgree(env, world, bindings, fields, typeName, merging, direct, path);
  }

  /** Collecting values from the front, stopping at the first that propagates, or from the back: the same object. */
  lemma {:induction false} FoldsAgree(env: Env, world: World, bindings: seq<Binding>, fields: seq<Field>,
                                      typeName: string, merging: Scope, direct: Scope, path: seq<Segment>)
    requires forall f | f in fields ::
               SameValue(MergeValue(env, f, typeName, merging, path),
                         ExecuteField(world, Bound(bindings), f, typeName, direct))
    ensures SameObject(MergeObject(env, fields, typeName, merging, path),
                       ExecuteSet(world, Bound(bindings), fields, typeName, direct))
    decreases |fields|
  {
    if fields != [] {
      var front, last := fields[..|fields| - 1], fields[|fields| - 1];
      assert last in fields;
      FoldsAgree(env, world, bindings, front, typeName, merging, direct, path);
      assert fields == front + [last];
      MergeSnoc(env, front, last, typeName, merging, path);
    }
  }

  lemma {:induction false} MergeSnoc(env: Env, front: seq<Field>, last: Field, typeName: string, scope: Scope,
                                     path: seq<Segment>)
    ensures var o := MergeObject(env, front + [last], typeName, scope, path);
            var p := MergeObject(env, front, typeName, scope, path);
            var v := MergeValue(env, last, typeName, scope, path);
            && (o.failed <==> p.failed || v.failed)
            && (!o.failed ==> o.members == p.members[last.responseKey := v.value])
    decreases |front|
  {
    var all := front + [last];
    if front == [] {
      assert all[1..] == [];
      assert MergeObject(env, [], typeName, scope, path).members == map[];
    } else {
      var head, rest := front[0], front[1..];
      assert all[0] == head && all[1..] == rest + [last];
      MergeSnoc(env, rest, last, typeName, scope, path);
      var h := MergeValue(env, head, typeName, scope, path);
      var m := MergeObject(env, rest, typeName, scope, path);
      var v := MergeValue(env, last, typeName, scope, path);
      if !h.failed && !m.failed && !v.failed {
        assert map[head.responseKey := h.value] + m.members[last.responseKey := v.value]
            == (map[head.responseKey := h.value] + m.members)[last.responseKey := v.value];
      }
    }
  }

  lemma {:induction false} FieldsAgree(env: Env, world: World, bindings: seq<Binding>, f: Field, typeName: string,
                                       merging: Scope, direct: Scope, node: Node, path: seq<Segment>)
    requires FieldAligned(env, world, bindings, f, merging, direct, node)
    ensures SameValue(MergeValue(env, f, typeName, merging, path),
                      ExecuteField(world, Bound(bindings), f, typeName, direct))
    decreases f, 3
  {
    var here := path + [Member(f.responseKey)];
    if f.IsTypename() {
    } else if f.IsSourced() {
      if merging.Top? {
        TopRaw(env, world, bindings, f, node);
        if ResultFor(env, f).Answered? {
          var raw := ValueAt(Object(ResultFor(env, f).data), Split(f.source.value.providerField));
          var inner :| RawAligned(f, raw, Read(world, Bound(bindings), f, direct), inner);
          SourcedAgree(env, world, bindings, f, raw, Read(world, Bound(bindings), f, direct), inner, here);
        }
      } else {
        var relative := Split(RelativePath(f.source.value.providerField, merging.declared));
        ScopedRaw(env, world, bindings, f, merging.item, direct.item, merging.declared, node);
        SourcedAgree(env, world, bindings, f, ValueAt(merging.item, relative), ValueAt(direct.item, relative),
                     Reached(node, relative), here);
      }
    } else if f.selections != [] {
      assert f in [f];
      assert Aligned(env, world, bindings, f.selections, merging, direct, node);
      SetsAgree(env, world, bindings, f.selections, f.definition.typ.BaseName(), merging, direct, node, here);
    }
  }

  /** The value of a sourced field, given what was read for it. */
  function ResolveRaw(world: World, bindings: seq<Binding>, f: Field, raw: Json): Json
    requires f.IsSourced()
  {
    if !f.IsObjectList() then raw
    else if !raw.List? then Null
    else
      match Gather(CompleteItems(world, bindings, f, raw.items))
      case None => Null
      case Some(items) => List(items)
  }

  function CompleteItems(world: World, bindings: seq<Binding>, f: Field, items: seq<Json>): seq<Option<Json>>
    requires f.IsObjectList()
  {
    seq(|items|, i requires 0 <= i < |items| => CompleteItem(world, Bound(bindings), f, items[i]))
  }

  lemma GatherOne(value: Json)
    ensures Gather([Some(value)]) == Some([value])
  {
    assert Gather([Some(value)]).value == [value];
  }

  /** A list of one item that can be completed. */
  lemma OneItem(world: World, bindings: seq<Binding>, f: Field, source: Scope, item: Json, completed: Json)
    requires f.IsObjectList() && Read(world, Bound(bindings), f, source) == List([item])
    requires CompleteItem(world, Bound(bindings), f, item) == Some(completed)
    ensures Resolve(world, Bound(bindings), f, source) == List([completed])
  {
    assert CompleteItems(world, bindings, f, [item]) == [Some(completed)];
    GatherOne(completed);
  }

  lemma {:induction false} SourcedAgree(env: Env, world: World, bindings: seq<Binding>, f: Field, raw: Json, full: Json,
                                        node: Node, here: seq<Segment>)
    requires RawAligned(f, raw, full, node)
    ensures SameValue(MergeSourced(env, f, raw, here), Guard(f.definition.typ, ResolveRaw(world, bindings, f, full)))
    decreases f, 2
  {
    if f.IsObjectList() {
      if raw.List? {
        ItemsAgree(env, world, bindings, f, raw.items, full.items, node, here, 0);
      }
    }
  }

  lemma {:induction false} ItemsAgree(env: Env, world: World, bindings: seq<Binding>, f: Field, raw: seq<Json>,
                                      full: seq<Json>, node: Node, here: seq<Segment>, i: nat)
    requires f.IsObjectList() && ReadableAt(node, f) && |raw| == |full| && i <= |raw|
    requires forall j | 0 <= j < |raw| :: Covers(node, full[j], raw[j])
    ensures var o := MergeItems(env, f, raw, i, here);
            var r := Gather(CompleteItems(world, bindings, f, full)[i..]);
            if o.failed then r == None else r == Some(o.items)
    decreases f, 1, |raw| - i
  {
    var all := CompleteItems(world, bindings, f, full);
    if i < |raw| {
      ItemAgrees(env, world, bindings, f, raw[i], full[i], node, here + [Index(i)]);
      ItemsAgree(env, world, bindings, f, raw, full, node, here, i + 1);
      assert all[i..] == [all[i]] + all[i + 1..];
      GatherCons(all[i], all[i + 1..]);
    } else {
      assert Gather(all[i..]).value == [];
    }
  }

  lemma GatherCons<T>(first: Option<T>, rest: seq<Option<T>>)
    ensures Gather([first] + rest) ==
            if first.Some? && Gather(rest).Some? then Some([first.value] + Gather(rest).value) else None
  {
    var all := [first] + rest;
    assert all[0] == first && forall i | 0 <= i < |rest| :: all[i + 1] == rest[i];
    if first.Some? && Gather(rest).Some? {
      assert Gather(all).value == [first.value] + Gather(rest).value;
    }
  }

  lemma {:induction false} ItemAgrees(env: Env, world: World, bindings: seq<Binding>, f: Field, raw: Json, full: Json,
                                      node: Node, here: seq<Segment>)
    requires f.IsObjectList() && ReadableAt(node, f) && Covers(node, full, raw)
    ensures SameValue(MergeItem(env, f, raw, here), CompleteItem(world, Bound(bindings), f, full))
    decreases f, 0
  {
    var declared := f.source.value.providerField;
    SetsAgree(env, world, bindings, f.selections, f.definition.typ.elem.BaseName(), Within(raw, declared),
              Within(full, declared), node, here);
  }
}
