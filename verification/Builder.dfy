/** Normalization as the federator runs it: groups and visited fragments updated in place, stopping at the first
    error. */
module Builder {
  import opened Wrappers
  import Json
  import opened Sequences
  import opened Fields
  import opened Document
  import opened Collection
  import opened Normalize

  /** Fields grouped by response key, keys in the order first seen. */
  class FieldGroups {
    var keys: seq<string>
    var byKey: map<string, seq<FieldNode>>
    /** The fields added, in order. */
    ghost var added: seq<FieldNode>

    ghost predicate Valid()
      reads this
    {
      && keys == KeysOf(added)
      && (forall key :: key in byKey <==> key in keys)
      && (forall key | key in byKey :: byKey[key] == Group(added, key))
    }

    constructor ()
      ensures Valid() && added == []
    {
      keys, byKey, added := [], map[], [];
    }

    method Add(key: string, field: FieldNode)
      requires Valid() && key == field.ResponseKey()
      modifies this
      ensures Valid() && added == old(added) + [field]
    {
      if key !in byKey {
        keys := keys + [key];
      }
      GroupsStep(added, field, byKey);
      KeysSnoc(added, field);
      byKey := byKey[key := (if key in byKey then byKey[key] else []) + [field]];
      added := added + [field];
    }
  }

  /** Appending a field to its own group regroups the fields with it. */
  lemma GroupsStep(nodes: seq<FieldNode>, field: FieldNode, byKey: map<string, seq<FieldNode>>)
    requires forall key :: key in byKey <==> key in KeysOf(nodes)
    requires forall key | key in byKey :: byKey[key] == Group(nodes, key)
    ensures var key := field.ResponseKey();
            var next := byKey[key := (if key in byKey then byKey[key] else []) + [field]];
            forall k | k in next :: next[k] == Group(nodes + [field], k)
  {
    var key := field.ResponseKey();
    if key !in byKey {
      GroupEmpty(nodes, key);
    }
    forall k ensures Group(nodes + [field], k) == Group(nodes, k) + (if k == key then [field] else []) {
      GroupSnoc(nodes, field, k);
    }
  }

  lemma KeysSnoc(nodes: seq<FieldNode>, field: FieldNode)
    ensures KeysOf(nodes + [field]) ==
            if field.ResponseKey() in KeysOf(nodes) then KeysOf(nodes) else KeysOf(nodes) + [field.ResponseKey()]
  {
    assert (nodes + [field])[..|nodes|] == nodes;
    DedupMembers(FlatMap(nodes, KeyOf));
  }

  lemma GroupSnoc(nodes: seq<FieldNode>, field: FieldNode, key: string)
    ensures Group(nodes + [field], key) == Group(nodes, key) + if field.ResponseKey() == key then [field] else []
  {
    assert (nodes + [field])[..|nodes|] == nodes;
  }

  lemma {:induction false} GroupEmpty(nodes: seq<FieldNode>, key: string)
    requires key !in KeysOf(nodes)
    ensures Group(nodes, key) == []
  {
    if nodes != [] {
      var front, last := nodes[..|nodes| - 1], nodes[|nodes| - 1];
      assert nodes == front + [last];
      KeysSnoc(front, last);
      GroupSnoc(front, last, key);
      GroupEmpty(front, key);
    }
  }

  /** The fragments followed while one selection set is collected. */
  class Visited {
    var names: set<string>

    constructor ()
      ensures names == {}
    {
      names := {};
    }
  }

  /** The groups and visited fragments after collecting `c`, or its first error. */
  twostate predicate Gathered(visited: Visited, groups: FieldGroups, c: Collected,
                              new r: Result<(), BuildError>)
    reads visited, groups
  {
    && groups.Valid()
    && (r.Ok? ==> && FailuresOf(c.items) == [] && visited.names == c.visited
                  && groups.added == old(groups.added) + NodesOf(c.items))
    && (r.Err? ==> FailuresOf(c.items) != [] && FailuresOf(c.items)[0] == r.error)
  }

  method CollectFields(c: Context, objectType: string, sels: seq<Selection>, visited: Visited, groups: FieldGroups)
    returns (r: Result<(), BuildError>)
    requires groups.Valid()
    modifies visited, groups
    ensures Gathered(visited, groups, Collect(c, objectType, sels, old(visited.names)), r)
    decreases Remaining(c, visited.names), sels
  {
    ghost var all := Collect(c, objectType, sels, visited.names);
    assert sels[0..] == sels;
    assert groups.added + NodesOf(all.items) == groups.added + NodesOf(all.items);
    for i := 0 to |sels|
      invariant groups.Valid() && old(visited.names) <= visited.names
      invariant var rest := Collect(c, objectType, sels[i..], visited.names);
                && FailuresOf(all.items) == FailuresOf(rest.items) && all.visited == rest.visited
                && old(groups.added) + NodesOf(all.items) == groups.added + NodesOf(rest.items)
    {
      FewerRemain(c, old(visited.names), visited.names);
      CollectStep(c, objectType, sels, i, visited.names, groups.added);
      r := CollectSelection(c, objectType, sels[i], visited, groups);
      if r.Err? {
        return;
      }
    }
    r := Ok(());
    assert sels[|sels|..] == [];
  }

  /** Collecting from the `i`-th selection on: the `i`-th one, then the rest. */
  lemma CollectStep(c: Context, objectType: string, sels: seq<Selection>, i: nat, visited: set<string>,
                    added: seq<FieldNode>)
    requires i < |sels|
    ensures var all := Collect(c, objectType, sels[i..], visited);
            var first := CollectOne(c, objectType, sels[i], visited);
            var rest := Collect(c, objectType, sels[i + 1..], first.visited);
            && FailuresOf(all.items) == FailuresOf(first.items) + FailuresOf(rest.items)
            && added + NodesOf(all.items) == (added + NodesOf(first.items)) + NodesOf(rest.items)
            && all.visited == rest.visited
  {
    assert sels[i..][0] == sels[i] && sels[i..][1..] == sels[i + 1..];
    var first := CollectOne(c, objectType, sels[i], visited);
    var rest := Collect(c, objectType, sels[i + 1..], first.visited);
    FlatMapConcat(first.items, rest.items, FailureOf);
    FlatMapConcat(first.items, rest.items, FoundOf);
    ConcatAssociates(added, NodesOf(first.items), NodesOf(rest.items));
  }

  /** What one item adds. */
  lemma OneItem(item: Item)
    ensures NodesOf([item]) == FoundOf(item) && FailuresOf([item]) == FailureOf(item)
  {
    FlatMapOne(item, FoundOf);
    FlatMapOne(item, FailureOf);
  }

  method CollectSelection(c: Context, objectType: string, sel: Selection, visited: Visited, groups: FieldGroups)
    returns (r: Result<(), BuildError>)
    requires groups.Valid()
    modifies visited, groups
    ensures Gathered(visited, groups, CollectOne(c, objectType, sel, old(visited.names)), r)
    decreases Remaining(c, visited.names), sel, 1
  {
    var included := Included(c, sel.Directives());
    if included.Err? {
      OneItem(Failure(included.error));
      return Err(included.error);
    }
    if !included.value {
      return Ok(());
    }
    match sel {
      case Select(field) =>
        OneItem(Found(field));
        groups.Add(field.ResponseKey(), field);
        r := Ok(());
      case Spread(name, _) =>
        r := CollectSpread(c, objectType, sel, visited, groups);
      case Inline(condition, _, selections) =>
        if condition != "" && !FragmentApplies(c, objectType, condition) {
          return Ok(());
        }
        r := CollectFields(c, objectType, selections, visited, groups);
    }
  }

  /** A fragment is followed the first time it is spread. */
  method CollectSpread(c: Context, objectType: string, sel: Selection, visited: Visited, groups: FieldGroups)
    returns (r: Result<(), BuildError>)
    requires groups.Valid() && sel.Spread? && Included(c, sel.Directives()) == Ok(true)
    modifies visited, groups
    ensures Gathered(visited, groups, CollectOne(c, objectType, sel, old(visited.names)), r)
    decreases Remaining(c, visited.names), sel, 0
  {
    var name := sel.name;
    if name in visited.names {
      return Ok(());
    }
    FewerRemain(c, visited.names, visited.names + {name});
    visited.names := visited.names + {name};
    if name !in c.fragments {
      OneItem(Failure(UndefinedFragment(name)));
      return Err(UndefinedFragment(name));
    }
    if !FragmentApplies(c, objectType, c.fragments[name].typeCondition) {
      return Ok(());
    }
    r := CollectFields(c, objectType, c.fragments[name].selections, visited, groups);
  }

  /** The coerced values of a field's arguments. */
  method CoercedArguments(c: Context, defs: seq<ArgDef>, provided: seq<Argument>)
    returns (r: Result<map<string, Json.Json>, string>)
    ensures r == CoerceArguments(c, defs, provided)
  {
    var args: map<string, Json.Json> := map[];
    for i := 0 to |defs|
      invariant CoerceArguments(c, defs[..i], provided) == Ok(args)
    {
      assert defs[..i + 1][..i] == defs[..i];
      var value := CoerceArgument(c, defs[i], provided);
      if value.Err? {
        ArgumentsStop(c, defs, provided, i + 1);
        return Err(value.error);
      }
      if value.value.Some? {
        args := args[defs[i].name := value.value.value];
      }
    }
    assert defs[..|defs|] == defs;
    r := Ok(args);
  }

  lemma {:induction false} ArgumentsStop(c: Context, defs: seq<ArgDef>, provided: seq<Argument>, i: nat)
    requires i <= |defs| && CoerceArguments(c, defs[..i], provided).Err?
    ensures CoerceArguments(c, defs, provided) == CoerceArguments(c, defs[..i], provided)
  {
    if i < |defs| {
      var n := |defs| - 1;
      assert defs[..n][..i] == defs[..i];
      ArgumentsStop(c, defs[..n], provided, i);
    } else {
      assert defs[..i] == defs;
    }
  }

  /** The fields of all selection sets, grouped. Each set starts with no fragment visited. */
  method GroupFields(c: Context, objectType: string, sets: seq<seq<Selection>>)
    returns (groups: FieldGroups, r: Result<(), BuildError>)
    ensures var items := CollectEach(c, objectType, sets);
            && (r.Ok? ==> FailuresOf(items) == [] && fresh(groups) && groups.Valid() && groups.added == NodesOf(items))
            && (r.Err? ==> FailuresOf(items) != [] && FailuresOf(items)[0] == r.error)
  {
    groups := new FieldGroups();
    for i := 0 to |sets|
      invariant groups.Valid() && fresh(groups)
      invariant groups.added == NodesOf(CollectEach(c, objectType, sets[..i]))
      invariant FailuresOf(CollectEach(c, objectType, sets[..i])) == []
    {
      var visited := new Visited();
      r := CollectFields(c, objectType, sets[i], visited, groups);
      EachStep(c, objectType, sets, i);
      if r.Err? {
        return;
      }
    }
    assert sets[..|sets|] == sets;
    r := Ok(());
  }

  /** The fields that selection sets select on an object type. */
  method BuildFields(c: Context, ghost rank: string -> nat, objectType: string, sets: seq<seq<Selection>>,
                     path: seq<string>, schemaPath: seq<string>) returns (r: Result<seq<Field>, BuildError>)
    requires Ranked(c, rank)
    ensures r == Build(c, rank, objectType, sets, path, schemaPath)
    decreases Depth(c, rank, Concat(sets)), 2, 0
  {
    var groups, collected := GroupFields(c, objectType, sets);
    if collected.Err? {
      return Err(collected.error);
    }
    CollectEachDepth(c, rank, objectType, sets);
    r := BuildGroups(c, rank, objectType, groups, path, schemaPath);
  }

  /** One field for every group. */
  method BuildGroups(c: Context, ghost rank: string -> nat, objectType: string, groups: FieldGroups,
                     path: seq<string>, schemaPath: seq<string>) returns (r: Result<seq<Field>, BuildError>)
    requires Ranked(c, rank) && groups.Valid()
    ensures r == BuildKeys(c, rank, objectType, groups.added, KeysOf(groups.added), path, schemaPath)
    decreases NodesDepth(c, rank, groups.added), 1, 0
  {
    ghost var nodes := groups.added;
    var keys, byKey := groups.keys, groups.byKey;
    var fields := [];
    UpToAll(c, rank, objectType, nodes, keys, path, schemaPath);
    for i := 0 to |keys|
      invariant BuildUpTo(c, rank, objectType, nodes, keys, path, schemaPath, i) == Ok(fields)
    {
      KeysStep(c, rank, objectType, nodes, keys, path, schemaPath, i);
      GroupDepth(c, rank, nodes, keys[i]);
      var field := BuildOne(c, rank, objectType, keys[i], byKey[keys[i]], path, schemaPath);
      if field.Err? {
        KeysStop(c, rank, objectType, nodes, keys, path, schemaPath, i + 1);
        return Err(field.error);
      }
      fields := fields + [field.value];
    }
    r := Ok(fields);
  }

  /** The first `i` selection sets, then the next; an error among them is the first error of all. */
  lemma EachStep(c: Context, objectType: string, sets: seq<seq<Selection>>, i: nat)
    requires i < |sets|
    ensures var former := CollectEach(c, objectType, sets[..i]);
            var next := Collect(c, objectType, sets[i], {}).items;
            var both := CollectEach(c, objectType, sets[..i + 1]);
            && NodesOf(both) == NodesOf(former) + NodesOf(next)
            && FailuresOf(both) == FailuresOf(former) + FailuresOf(next)
            && FailuresOf(both) <= FailuresOf(CollectEach(c, objectType, sets))
  {
    assert sets[..i + 1][..i] == sets[..i];
    var former, next := CollectEach(c, objectType, sets[..i]), Collect(c, objectType, sets[i], {}).items;
    FlatMapConcat(former, next, FoundOf);
    FlatMapConcat(former, next, FailureOf);
    assert sets == sets[..i + 1] + sets[i + 1..];
    FlatMapConcat(sets[..i + 1], sets[i + 1..], CollectFrom(c, objectType));
    FlatMapConcat(CollectEach(c, objectType, sets[..i + 1]), CollectEach(c, objectType, sets[i + 1..]), FailureOf);
  }

  /** The fields of the first `i` keys. */
  ghost function BuildUpTo(c: Context, rank: string -> nat, objectType: string, nodes: seq<FieldNode>,
                           keys: seq<string>, path: seq<string>, schemaPath: seq<string>, i: nat):
    Result<seq<Field>, BuildError>
    requires Ranked(c, rank) && i <= |keys| && forall key | key in keys :: key in KeysOf(nodes)
  {
    BuildKeys(c, rank, objectType, nodes, keys[..i], path, schemaPath)
  }

  lemma UpToAll(c: Context, rank: string -> nat, objectType: string, nodes: seq<FieldNode>, keys: seq<string>,
                path: seq<string>, schemaPath: seq<string>)
    requires Ranked(c, rank) && forall key | key in keys :: key in KeysOf(nodes)
    ensures BuildUpTo(c, rank, objectType, nodes, keys, path, schemaPath, |keys|) ==
            BuildKeys(c, rank, objectType, nodes, keys, path, schemaPath)
  {
    assert keys[..|keys|] == keys;
  }

  /** Building the first `i + 1` keys: the first `i`, then the next. */
  lemma KeysStep(c: Context, rank: string -> nat, objectType: string, nodes: seq<FieldNode>, keys: seq<string>,
                 path: seq<string>, schemaPath: seq<string>, i: nat)
    requires Ranked(c, rank) && i < |keys| && forall key | key in keys :: key in KeysOf(nodes)
    ensures Group(nodes, keys[i]) != []
    ensures var former := BuildUpTo(c, rank, objectType, nodes, keys, path, schemaPath, i);
            var field := BuildField(c, rank, objectType, keys[i], Group(nodes, keys[i]), path, schemaPath);
            BuildUpTo(c, rank, objectType, nodes, keys, path, schemaPath, i + 1) ==
            if former.Err? then former else if field.Err? then Err(field.error) else Ok(former.value + [field.value])
  {
    var upTo := keys[..i + 1];
    assert upTo[..|upTo| - 1] == keys[..i] && upTo[|upTo| - 1] == keys[i];
    GroupNonEmpty(nodes, keys[i]);
  }

  lemma {:induction false} KeysStop(c: Context, rank: string -> nat, objectType: string, nodes: seq<FieldNode>,
                                    keys: seq<string>, path: seq<string>, schemaPath: seq<string>, i: nat)
    requires Ranked(c, rank) && i <= |keys| && forall key | key in keys :: key in KeysOf(nodes)
    requires BuildUpTo(c, rank, objectType, nodes, keys, path, schemaPath, i).Err?
    ensures BuildUpTo(c, rank, objectType, nodes, keys, path, schemaPath, |keys|) ==
            BuildUpTo(c, rank, objectType, nodes, keys, path, schemaPath, i)
    decreases |keys| - i
  {
    if i < |keys| {
      KeysStep(c, rank, objectType, nodes, keys, path, schemaPath, i);
      KeysStop(c, rank, objectType, nodes, keys, path, schemaPath, i + 1);
    }
  }

  method BuildOne(c: Context, ghost rank: string -> nat, objectType: string, key: string, group: seq<FieldNode>,
                  path: seq<string>, schemaPath: seq<string>) returns (r: Result<Field, BuildError>)
    requires Ranked(c, rank) && group != []
    ensures r == BuildField(c, rank, objectType, key, group, path, schemaPath)
    decreases NodesDepth(c, rank, group), 0, 0
  {
    var first := group[0];
    if first.definition.None? {
      return Err(NoDefinition(objectType, first.name));
    }
    var definition := first.definition.value;
    var args := CoercedArguments(c, definition.args, first.arguments);
    if args.Err? {
      return Err(BadArgument(objectType, first.name, args.error));
    }
    var source: Option<SourceInfo> := None;
    if (objectType, first.name) in c.sources {
      source := Some(c.sources[(objectType, first.name)]);
    }
    var field := Field(key, first.name, path + [key], schemaPath + [first.name], args.value, definition, source, []);

    var sets: seq<seq<Selection>> := [];
    for i := 0 to |group|
      invariant sets == SetsOf(group[..i])
    {
      assert group[..i + 1][..i] == group[..i];
      if group[i].selections != [] {
        sets := sets + [group[i].selections];
      }
    }
    assert group[..|group|] == group;
    if sets == [] {
      return Ok(field);
    }

    var fieldType := definition.typ.BaseName();
    if fieldType !in c.objectTypes {
      return Err(NotAnObject(objectType, first.name, fieldType));
    }
    SetsDepth(c, rank, group);
    var selections := BuildFields(c, rank, fieldType, sets, field.path, field.schemaPath);
    if selections.Err? {
      return Err(selections.error);
    }
    r := Ok(field.(selections := selections.value));
  }
}
