/** What a normalized selection set holds, read directly off the query: no collecting, grouping or merging, only the
    ways that lead from a selection set to a field. */
module Outline {
  import opened Wrappers
  import opened Sequences
  import Json
  import opened Fields
  import opened Document
  import opened Collection
  import opened Normalize

  /** The directives do not leave the selection out. */
  ghost predicate Kept(c: Context, directives: seq<Directive>) {
    && (Absent(directives, "skip") || Says(c, directives, "skip", false))
    && (Absent(directives, "include") || Says(c, directives, "include", true))
  }

  ghost predicate KeptSelection(c: Context, sel: Selection) {
    match sel
    case Select(node) => Kept(c, node.directives)
    case Spread(_, directives) => Kept(c, directives)
    case Inline(_, directives, _) => Kept(c, directives)
  }

  /** The schema lists `objectType` among the types that satisfy the condition. */
  predicate Satisfies(c: Context, objectType: string, condition: string) {
    exists types | types in c.possibleTypes.Values ::
      condition in c.possibleTypes && c.possibleTypes[condition] == types && objectType in types
  }

  /** A way from the selections to the field: kept selections, fragments whose type condition the object type satisfies,
      and inline fragments without a condition or with one that it satisfies. */
  ghost predicate Leads(c: Context, objectType: string, sels: seq<Selection>, route: seq<Selection>, node: FieldNode)
    decreases |route|
  {
    && route != [] && route[0] in sels && KeptSelection(c, route[0])
    && match route[0]
       case Select(field) => |route| == 1 && field == node
       case Spread(name, _) =>
         && name in c.fragments && Satisfies(c, objectType, c.fragments[name].typeCondition)
         && Leads(c, objectType, c.fragments[name].selections, route[1..], node)
       case Inline(condition, _, selections) =>
         && (condition == "" || Satisfies(c, objectType, condition))
         && Leads(c, objectType, selections, route[1..], node)
  }

  ghost predicate IsWay(c: Context, objectType: string, sels: seq<Selection>, route: seq<Selection>, node: FieldNode) {
    Leads(c, objectType, sels, route, node)
  }

  /** Some way leads to the field, which is to be reported under `key`: its alias or, without one, its name. */
  ghost predicate Selected(c: Context, objectType: string, sels: seq<Selection>, key: string, node: FieldNode) {
    && (exists route :: IsWay(c, objectType, sels, route, node))
    && ((node.alias != "" && node.alias == key) || (node.alias == "" && node.name == key))
  }

  /** `fields` is what the selections ask for on the object type: one field for every key under which something is
      selected, and nothing else. */
  ghost predicate Outlined(c: Context, objectType: string, sels: seq<Selection>, fields: seq<Field>)
    decreases fields, 1
  {
    && (forall i, j | 0 <= i < j < |fields| :: fields[i].responseKey != fields[j].responseKey)
    && (forall key :: HasKey(fields, key) <==> exists node :: Selected(c, objectType, sels, key, node))
    && (forall f | f in fields :: exists inner :: Merges(c, objectType, sels, f, inner))
  }

  ghost predicate AllMerge(c: Context, objectType: string, sels: seq<Selection>, fields: seq<Field>) {
    forall f | f in fields :: exists inner :: Merges(c, objectType, sels, f, inner)
  }

  predicate HasKey(fields: seq<Field>, key: string) {
    exists f :: f in fields && f.responseKey == key
  }

  /** The field is as one of the selected ones says, with the source the schema names for it on the object type, and
      its own selections are what the selected fields' selections, merged into `inner`, ask for on its type. */
  ghost predicate Merges(c: Context, objectType: string, sels: seq<Selection>, f: Field, inner: seq<Selection>)
    decreases f, 0
  {
    && (exists node :: Selected(c, objectType, sels, f.responseKey, node) && IsField(c, objectType, f, node))
    && (forall s :: s in inner <==>
          exists node :: Selected(c, objectType, sels, f.responseKey, node) && s in node.selections)
    && Outlined(c, f.definition.typ.BaseName(), inner, f.selections)
    && (inner != [] ==> f.definition.typ.BaseName() in c.objectTypes)
  }

  predicate IsField(c: Context, objectType: string, f: Field, node: FieldNode) {
    && f.name == node.name && node.definition == Some(f.definition)
    && CoerceArguments(c, f.definition.args, node.arguments) == Ok(f.arguments)
    && (f.source.Some? <==> (objectType, node.name) in c.sources)
    && (f.source.Some? ==> f.source.value == c.sources[(objectType, node.name)])
  }

  // Normalizing outlines the query

  lemma IncludedIfKept(c: Context, sel: Selection)
    ensures Included(c, sel.Directives()) == Ok(true) <==> KeptSelection(c, sel)
  {
    IncludedIff(c, sel.Directives());
  }

  lemma AppliesIfSatisfied(c: Context, objectType: string, condition: string)
    ensures FragmentApplies(c, objectType, condition) <==> Satisfies(c, objectType, condition)
  {
    if FragmentApplies(c, objectType, condition) {
      assert c.possibleTypes[condition] in c.possibleTypes.Values;
    }
  }

  lemma {:induction false} LeadsIffRoute(c: Context, objectType: string, sels: seq<Selection>, route: seq<Selection>,
                                         node: FieldNode)
    ensures Leads(c, objectType, sels, route, node) <==> Route(c, objectType, sels, route, node)
    decreases |route|
  {
    if route != [] {
      IncludedIfKept(c, route[0]);
      match route[0] {
        case Select(_) =>
          assert |route| > 1 ==> !Route(c, objectType, [], route[1..], node);
        case Spread(name, _) =>
          if name in c.fragments {
            AppliesIfSatisfied(c, objectType, c.fragments[name].typeCondition);
            LeadsIffRoute(c, objectType, c.fragments[name].selections, route[1..], node);
          }
          assert !Route(c, objectType, [], route[1..], node);
        case Inline(condition, _, selections) =>
          AppliesIfSatisfied(c, objectType, condition);
          LeadsIffRoute(c, objectType, selections, route[1..], node);
          assert !Route(c, objectType, [], route[1..], node);
      }
    }
  }

  lemma SelectedIffCollected(c: Context, rank: string -> nat, objectType: string, sels: seq<Selection>, key: string,
                             node: FieldNode)
    requires Ranked(c, rank)
    ensures Selected(c, objectType, sels, key, node) <==>
            node in NodesOf(Collect(c, objectType, sels, {}).items) && node.ResponseKey() == key
  {
    CollectedIffRouted(c, rank, objectType, sels, node);
    var items := Collect(c, objectType, sels, {}).items;
    FlatMapMember(items, FoundOf, node);
    if Found(node) in items {
      var i :| 0 <= i < |items| && items[i] == Found(node);
      assert node in FoundOf(items[i]);
    }
    if route :| IsWay(c, objectType, sels, route, node) {
      LeadsIffRoute(c, objectType, sels, route, node);
      assert IsRoute(c, objectType, sels, route, node);
    }
    if route :| IsRoute(c, objectType, sels, route, node) {
      LeadsIffRoute(c, objectType, sels, route, node);
      assert IsWay(c, objectType, sels, route, node);
    }
  }

  lemma KeysMember(nodes: seq<FieldNode>, key: string)
    ensures key in KeysOf(nodes) <==> exists node :: node in nodes && node.ResponseKey() == key
  {
    DedupMembers(FlatMap(nodes, KeyOf));
    FlatMapMember(nodes, KeyOf, key);
    if i :| 0 <= i < |nodes| && key in KeyOf(nodes[i]) {
      assert nodes[i] in nodes;
    }
    if node :| node in nodes && node.ResponseKey() == key {
      var i :| 0 <= i < |nodes| && nodes[i] == node;
      assert key in KeyOf(nodes[i]);
    }
  }

  lemma GroupMember(nodes: seq<FieldNode>, key: string, node: FieldNode)
    ensures node in Group(nodes, key) <==> node in nodes && node.ResponseKey() == key
  {
    FlatMapMember(nodes, InGroup(key), node);
    if node in nodes && node.ResponseKey() == key {
      var i :| 0 <= i < |nodes| && nodes[i] == node;
      assert node in InGroup(key)(nodes[i]);
    }
  }

  lemma MergedMember(group: seq<FieldNode>, s: Selection)
    ensures s in Concat(SetsOf(group)) <==> exists node :: node in group && s in node.selections
  {
    FlatMapMember(SetsOf(group), Itself, s);
    if i :| 0 <= i < |SetsOf(group)| && s in Itself(SetsOf(group)[i]) {
      FlatMapMember(group, SetOf, SetsOf(group)[i]);
      var j :| 0 <= j < |group| && SetsOf(group)[i] in SetOf(group[j]);
      assert group[j] in group;
    }
    if node :| node in group && s in node.selections {
      var j :| 0 <= j < |group| && group[j] == node;
      assert node.selections in SetOf(group[j]);
      FlatMapMember(group, SetOf, node.selections);
      var i :| 0 <= i < |SetsOf(group)| && SetsOf(group)[i] == node.selections;
      assert s in Itself(SetsOf(group)[i]);
    }
  }

  lemma NothingOutlined(c: Context, objectType: string)
    ensures Outlined(c, objectType, [], [])
  {
    forall key, node ensures !Selected(c, objectType, [], key, node) {
    }
  }

  /** A normalized selection set is exactly what the query selects: one field for every alias or name that some way
      through kept selections and satisfied conditions leads to, and so on below. */
  lemma {:induction false} NormalizedIsOutlined(c: Context, rank: string -> nat, objectType: string,
                                                sels: seq<Selection>, path: seq<string>, schemaPath: seq<string>)
    requires Ranked(c, rank)
    ensures var r := Specified(c, rank, objectType, sels, path, schemaPath);
            r.Ok? ==> Outlined(c, objectType, sels, r.value)
    decreases Depth(c, rank, sels), 2, 0
  {
    var r := Specified(c, rank, objectType, sels, path, schemaPath);
    if r.Ok? {
      var nodes := NodesOf(Collect(c, objectType, sels, {}).items);
      CollectDepth(c, rank, objectType, sels, {});
      KeysOutlined(c, rank, objectType, sels, nodes, KeysOf(nodes), path, schemaPath);
      KeysAreKeyed(c, rank, objectType, nodes, KeysOf(nodes), path, schemaPath);
      DedupMembers(FlatMap(nodes, KeyOf));
      forall key ensures HasKey(r.value, key) <==> exists node :: Selected(c, objectType, sels, key, node) {
        KeySelected(c, rank, objectType, sels, nodes, r.value, key);
      }
    }
  }

  lemma KeySelected(c: Context, rank: string -> nat, objectType: string, sels: seq<Selection>, nodes: seq<FieldNode>,
                    fields: seq<Field>, key: string)
    requires Ranked(c, rank) && nodes == NodesOf(Collect(c, objectType, sels, {}).items)
    requires Keyed(fields, KeysOf(nodes))
    ensures HasKey(fields, key) <==> exists node :: Selected(c, objectType, sels, key, node)
  {
    KeysMember(nodes, key);
    forall node ensures Selected(c, objectType, sels, key, node) <==> node in nodes && node.ResponseKey() == key {
      SelectedIffCollected(c, rank, objectType, sels, key, node);
    }
    if key in KeysOf(nodes) {
      var i :| 0 <= i < |KeysOf(nodes)| && KeysOf(nodes)[i] == key;
      assert fields[i] in fields;
    }
  }

  lemma {:induction false} KeysOutlined(c: Context, rank: string -> nat, objectType: string, sels: seq<Selection>,
                                        nodes: seq<FieldNode>, keys: seq<string>, path: seq<string>,
                                        schemaPath: seq<string>)
    requires Ranked(c, rank) && nodes == NodesOf(Collect(c, objectType, sels, {}).items)
    requires forall key | key in keys :: key in KeysOf(nodes)
    ensures var r := SpecifiedKeys(c, rank, objectType, nodes, keys, path, schemaPath);
            r.Ok? ==> AllMerge(c, objectType, sels, r.value)
    decreases NodesDepth(c, rank, nodes), 1, |keys|
  {
    if keys != [] {
      var n := |keys| - 1;
      KeysOutlined(c, rank, objectType, sels, nodes, keys[..n], path, schemaPath);
      GroupNonEmpty(nodes, keys[n]);
      GroupDepth(c, rank, nodes, keys[n]);
      GroupOutlined(c, rank, objectType, sels, nodes, keys[n], path, schemaPath);
      var front := SpecifiedKeys(c, rank, objectType, nodes, keys[..n], path, schemaPath);
      var group := Group(nodes, keys[n]);
      var field := SpecifiedField(c, rank, objectType, keys[n], group, path, schemaPath);
      if front.Ok? && field.Ok? {
        OneMoreMerges(c, objectType, sels, front.value, field.value);
      }
    }
  }

  lemma OneMoreMerges(c: Context, objectType: string, sels: seq<Selection>, fields: seq<Field>, f: Field)
    requires AllMerge(c, objectType, sels, fields) && AllMerge(c, objectType, sels, [f])
    ensures AllMerge(c, objectType, sels, fields + [f])
  {
    assert f in [f];
  }

  lemma {:induction false} KeysAreKeyed(c: Context, rank: string -> nat, objectType: string, nodes: seq<FieldNode>,
                                        keys: seq<string>, path: seq<string>, schemaPath: seq<string>)
    requires Ranked(c, rank) && forall key | key in keys :: key in KeysOf(nodes)
    ensures var r := SpecifiedKeys(c, rank, objectType, nodes, keys, path, schemaPath); r.Ok? ==> Keyed(r.value, keys)
    decreases |keys|
  {
    if keys != [] {
      var n := |keys| - 1;
      KeysAreKeyed(c, rank, objectType, nodes, keys[..n], path, schemaPath);
      GroupNonEmpty(nodes, keys[n]);
      GroupDepth(c, rank, nodes, keys[n]);
      var front := SpecifiedKeys(c, rank, objectType, nodes, keys[..n], path, schemaPath);
      var field := SpecifiedField(c, rank, objectType, keys[n], Group(nodes, keys[n]), path, schemaPath);
      FieldIsKeyed(c, rank, objectType, keys[n], Group(nodes, keys[n]), path, schemaPath);
      if front.Ok? && field.Ok? {
        OneMoreKeyed(front.value, field.value, keys);
      }
    }
  }

  lemma FieldIsKeyed(c: Context, rank: string -> nat, objectType: string, key: string, group: seq<FieldNode>,
                     path: seq<string>, schemaPath: seq<string>)
    requires Ranked(c, rank) && group != []
    ensures var r := SpecifiedField(c, rank, objectType, key, group, path, schemaPath);
            r.Ok? ==> r.value.responseKey == key
  {
  }

  lemma OneMoreKeyed(fields: seq<Field>, f: Field, keys: seq<string>)
    requires keys != [] && Keyed(fields, keys[..|keys| - 1]) && f.responseKey == keys[|keys| - 1]
    ensures Keyed(fields + [f], keys)
  {
  }

  lemma {:induction false} GroupOutlined(c: Context, rank: string -> nat, objectType: string, sels: seq<Selection>,
                                         nodes: seq<FieldNode>, key: string, path: seq<string>,
                                         schemaPath: seq<string>)
    requires Ranked(c, rank) && nodes == NodesOf(Collect(c, objectType, sels, {}).items) && Group(nodes, key) != []
    ensures var group := Group(nodes, key);
            var r := SpecifiedField(c, rank, objectType, key, group, path, schemaPath);
            r.Ok? ==> AllMerge(c, objectType, sels, [r.value])
    decreases NodesDepth(c, rank, Group(nodes, key)), 0, 0
  {
    var group := Group(nodes, key);
    var inner := Concat(SetsOf(group));
    var r := SpecifiedField(c, rank, objectType, key, group, path, schemaPath);
    if r.Ok? {
      var f, head := r.value, Head(c, objectType, key, group[0], path, schemaPath).value;
      forall node ensures Selected(c, objectType, sels, key, node) <==> node in group {
        GroupMember(nodes, key, node);
        SelectedIffCollected(c, rank, objectType, sels, key, node);
      }
      assert Selected(c, objectType, sels, key, group[0]) && IsField(c, objectType, f, group[0]);
      forall s ensures s in inner <==> exists node :: Selected(c, objectType, sels, key, node) && s in node.selections {
        MergedMember(group, s);
      }
      SetsDepth(c, rank, group);
      if inner == [] {
        NothingOutlined(c, f.definition.typ.BaseName());
      } else {
        NormalizedIsOutlined(c, rank, f.definition.typ.BaseName(), inner, head.path, head.schemaPath);
      }
      assert Merges(c, objectType, sels, f, inner);
    }
  }
}
