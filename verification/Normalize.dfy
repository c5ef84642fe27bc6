/** Normalizing a selection set, twice: as the federator does, merging the selection sets of a response key one after
    the other, and as sections 6.3.2 and 6.4.3 of the GraphQL specification (October 2021) say, collecting once over
    their concatenation. The two agree. */
module Normalize {
  import opened Wrappers
  import opened Sequences
  import opened Fields
  import opened Document
  import opened Collection

  // What was collected

  function FoundOf(item: Item): seq<FieldNode> {
    if item.Found? then [item.field] else []
  }

  function FailureOf(item: Item): seq<BuildError> {
    if item.Failure? then [item.error] else []
  }

  function NodesOf(items: seq<Item>): seq<FieldNode> {
    FlatMap(items, FoundOf)
  }

  function FailuresOf(items: seq<Item>): seq<BuildError> {
    FlatMap(items, FailureOf)
  }

  function KeyOf(node: FieldNode): seq<string> {
    [node.ResponseKey()]
  }

  function InGroup(key: string): FieldNode -> seq<FieldNode> {
    (node: FieldNode) => if node.ResponseKey() == key then [node] else []
  }

  function SetOf(node: FieldNode): seq<seq<Selection>> {
    if node.selections == [] then [] else [node.selections]
  }

  function Itself<T>(s: seq<T>): seq<T> {
    s
  }

  /** Response keys, in the order first seen. */
  function KeysOf(nodes: seq<FieldNode>): seq<string> {
    Dedup(FlatMap(nodes, KeyOf))
  }

  /** The fields with one response key. */
  function Group(nodes: seq<FieldNode>, key: string): seq<FieldNode> {
    FlatMap(nodes, InGroup(key))
  }

  /** The selection sets to merge for a group of fields. */
  function SetsOf(group: seq<FieldNode>): seq<seq<Selection>> {
    FlatMap(group, SetOf)
  }

  function CollectFrom(c: Context, objectType: string): seq<Selection> -> seq<Item> {
    (sels: seq<Selection>) => Collect(c, objectType, sels, {}).items
  }

  /** Each selection set collected on its own. */
  function CollectEach(c: Context, objectType: string, sets: seq<seq<Selection>>): seq<Item> {
    FlatMap(sets, CollectFrom(c, objectType))
  }

  function Concat(sets: seq<seq<Selection>>): seq<Selection> {
    FlatMap(sets, Itself)
  }

  // How deep fields nest once fragments are followed

  ghost function Depth(c: Context, rank: string -> nat, sels: seq<Selection>): nat
    requires Ranked(c, rank)
    decreases MaxRank(rank, sels), sels
  {
    if sels == [] then 0 else Max(DepthOne(c, rank, sels[0]), Depth(c, rank, sels[1..]))
  }

  ghost function DepthOne(c: Context, rank: string -> nat, sel: Selection): nat
    requires Ranked(c, rank)
    decreases MaxRankOne(rank, sel), sel
  {
    match sel
    case Select(field) => 1 + Depth(c, rank, field.selections)
    case Spread(name, _) => if name in c.fragments then Depth(c, rank, c.fragments[name].selections) else 0
    case Inline(_, _, selections) => Depth(c, rank, selections)
  }

  ghost function NodesDepth(c: Context, rank: string -> nat, nodes: seq<FieldNode>): nat
    requires Ranked(c, rank)
  {
    if nodes == [] then 0
    else Max(NodesDepth(c, rank, nodes[..|nodes| - 1]), 1 + Depth(c, rank, nodes[|nodes| - 1].selections))
  }

  lemma {:induction false} DepthConcat(c: Context, rank: string -> nat, a: seq<Selection>, b: seq<Selection>)
    requires Ranked(c, rank)
    ensures Depth(c, rank, a + b) == Max(Depth(c, rank, a), Depth(c, rank, b))
  {
    if a == [] {
      assert a + b == b;
    } else {
      DepthConcat(c, rank, a[1..], b);
      assert (a + b)[1..] == a[1..] + b;
    }
  }

  lemma {:induction false} NodesDepthConcat(c: Context, rank: string -> nat, a: seq<FieldNode>, b: seq<FieldNode>)
    requires Ranked(c, rank)
    ensures NodesDepth(c, rank, a + b) == Max(NodesDepth(c, rank, a), NodesDepth(c, rank, b))
  {
    if b == [] {
      assert a + b == a;
    } else {
      NodesDepthConcat(c, rank, a, b[..|b| - 1]);
      assert (a + b)[..|a + b| - 1] == a + b[..|b| - 1];
    }
  }

  /** Collected fields nest no deeper than the selections they were collected from. */
  lemma {:induction false} CollectDepth(c: Context, rank: string -> nat, objectType: string, sels: seq<Selection>,
                                        visited: set<string>)
    requires Ranked(c, rank)
    ensures NodesDepth(c, rank, NodesOf(Collect(c, objectType, sels, visited).items)) <= Depth(c, rank, sels)
    decreases Remaining(c, visited), sels
  {
    if sels != [] {
      var first := CollectOne(c, objectType, sels[0], visited);
      FewerRemain(c, visited, first.visited);
      CollectOneDepth(c, rank, objectType, sels[0], visited);
      CollectDepth(c, rank, objectType, sels[1..], first.visited);
      var rest := Collect(c, objectType, sels[1..], first.visited);
      FlatMapConcat(first.items, rest.items, FoundOf);
      NodesDepthConcat(c, rank, NodesOf(first.items), NodesOf(rest.items));
    }
  }

  lemma NodesDepthOne(c: Context, rank: string -> nat, item: Item)
    requires Ranked(c, rank)
    ensures NodesDepth(c, rank, NodesOf([item])) == if item.Found? then 1 + Depth(c, rank, item.field.selections) else 0
  {
    FlatMapOne(item, FoundOf);
  }

  lemma {:induction false} CollectOneDepth(c: Context, rank: string -> nat, objectType: string, sel: Selection,
                                           visited: set<string>)
    requires Ranked(c, rank)
    ensures NodesDepth(c, rank, NodesOf(CollectOne(c, objectType, sel, visited).items)) <= DepthOne(c, rank, sel)
    decreases Remaining(c, visited), sel
  {
    var items := CollectOne(c, objectType, sel, visited).items;
    match Included(c, sel.Directives()) {
      case Err(error) =>
        NodesDepthOne(c, rank, Failure(error));
      case Ok(false) =>
      case Ok(true) =>
        match sel {
          case Select(field) =>
            NodesDepthOne(c, rank, Found(field));
          case Spread(name, _) =>
            if name !in visited && name in c.fragments {
              FewerRemain(c, visited, visited + {name});
              CollectDepth(c, rank, objectType, c.fragments[name].selections, visited + {name});
            } else {
              NodesDepthOne(c, rank, Failure(UndefinedFragment(name)));
            }
          case Inline(_, _, selections) =>
            CollectDepth(c, rank, objectType, selections, visited);
        }
    }
  }

  lemma {:induction false} CollectEachDepth(c: Context, rank: string -> nat, objectType: string,
                                            sets: seq<seq<Selection>>)
    requires Ranked(c, rank)
    ensures NodesDepth(c, rank, NodesOf(CollectEach(c, objectType, sets))) <= Depth(c, rank, Concat(sets))
  {
    if sets != [] {
      var front, last := sets[..|sets| - 1], sets[|sets| - 1];
      CollectEachDepth(c, rank, objectType, front);
      CollectDepth(c, rank, objectType, last, {});
      DepthConcat(c, rank, Concat(front), last);
      var former, latter := CollectEach(c, objectType, front), Collect(c, objectType, last, {}).items;
      FlatMapConcat(former, latter, FoundOf);
      NodesDepthConcat(c, rank, NodesOf(former), NodesOf(latter));
    }
  }

  lemma {:induction false} GroupDepth(c: Context, rank: string -> nat, nodes: seq<FieldNode>, key: string)
    requires Ranked(c, rank)
    ensures NodesDepth(c, rank, Group(nodes, key)) <= NodesDepth(c, rank, nodes)
  {
    if nodes != [] {
      var front := nodes[..|nodes| - 1];
      GroupDepth(c, rank, front, key);
      NodesDepthConcat(c, rank, Group(front, key), InGroup(key)(nodes[|nodes| - 1]));
    }
  }

  lemma {:induction false} SetsDepth(c: Context, rank: string -> nat, group: seq<FieldNode>)
    requires Ranked(c, rank) && group != []
    ensures Depth(c, rank, Concat(SetsOf(group))) < NodesDepth(c, rank, group)
  {
    var front, last := group[..|group| - 1], group[|group| - 1];
    if front != [] {
      SetsDepth(c, rank, front);
    }
    FlatMapConcat(SetsOf(front), SetOf(last), Itself);
    DepthConcat(c, rank, Concat(SetsOf(front)), Concat(SetOf(last)));
    SetDepth(c, rank, last);
  }

  lemma SetDepth(c: Context, rank: string -> nat, node: FieldNode)
    requires Ranked(c, rank)
    ensures Depth(c, rank, Concat(SetOf(node))) == Depth(c, rank, node.selections)
  {
    if node.selections != [] {
      FlatMapOne(node.selections, Itself);
    }
  }

  lemma GroupNonEmpty(nodes: seq<FieldNode>, key: string)
    requires key in KeysOf(nodes)
    ensures Group(nodes, key) != []
    ensures Group(nodes, key)[0].ResponseKey() == key
  {
    DedupMembers(FlatMap(nodes, KeyOf));
    FlatMapMember(nodes, KeyOf, key);
    var i :| 0 <= i < |nodes| && key in KeyOf(nodes[i]);
    assert nodes[i] in InGroup(key)(nodes[i]);
    FlatMapMember(nodes, InGroup(key), nodes[i]);
    FlatMapMember(nodes, InGroup(key), Group(nodes, key)[0]);
  }

  // One field

  /** A field without its selections, from the first field with its response key. */
  function Head(c: Context, objectType: string, key: string, first: FieldNode, path: seq<string>,
                schemaPath: seq<string>): Result<Field, BuildError> {
    match first.definition
    case None => Err(NoDefinition(objectType, first.name))
    case Some(definition) =>
      match CoerceArguments(c, definition.args, first.arguments)
      case Err(name) => Err(BadArgument(objectType, first.name, name))
      case Ok(args) =>
        var source :=
          if (objectType, first.name) in c.sources then Some(c.sources[(objectType, first.name)]) else None;
        Ok(Field(key, first.name, path + [key], schemaPath + [first.name], args, definition, source, []))
  }

  /** The object type a field's selections are collected on. */
  function ObjectTypeOf(c: Context, objectType: string, head: Field): Result<string, BuildError> {
    var name := head.definition.typ.BaseName();
    if name in c.objectTypes then Ok(name) else Err(NotAnObject(objectType, head.name, name))
  }

  // As the federator does

  ghost function Build(c: Context, rank: string -> nat, objectType: string, sets: seq<seq<Selection>>,
                       path: seq<string>, schemaPath: seq<string>): Result<seq<Field>, BuildError>
    requires Ranked(c, rank)
    decreases Depth(c, rank, Concat(sets)), 2, 0
  {
    var items := CollectEach(c, objectType, sets);
    CollectEachDepth(c, rank, objectType, sets);
    if FailuresOf(items) != [] then Err(FailuresOf(items)[0])
    else BuildKeys(c, rank, objectType, NodesOf(items), KeysOf(NodesOf(items)), path, schemaPath)
  }

  ghost function BuildKeys(c: Context, rank: string -> nat, objectType: string, nodes: seq<FieldNode>,
                           keys: seq<string>, path: seq<string>, schemaPath: seq<string>):
    Result<seq<Field>, BuildError>
    requires Ranked(c, rank) && forall key | key in keys :: key in KeysOf(nodes)
    decreases NodesDepth(c, rank, nodes), 1, |keys|
  {
    if keys == [] then Ok([])
    else
      var n := |keys| - 1;
      var front :- BuildKeys(c, rank, objectType, nodes, keys[..n], path, schemaPath);
      GroupNonEmpty(nodes, keys[n]);
      GroupDepth(c, rank, nodes, keys[n]);
      var field :- BuildField(c, rank, objectType, keys[n], Group(nodes, keys[n]), path, schemaPath);
      Ok(front + [field])
  }

  ghost function BuildField(c: Context, rank: string -> nat, objectType: string, key: string, group: seq<FieldNode>,
                            path: seq<string>, schemaPath: seq<string>): Result<Field, BuildError>
    requires Ranked(c, rank) && group != []
    decreases NodesDepth(c, rank, group), 0, 0
  {
    var head :- Head(c, objectType, key, group[0], path, schemaPath);
    var sets := SetsOf(group);
    if sets == [] then Ok(head)
    else
      var fieldType :- ObjectTypeOf(c, objectType, head);
      SetsDepth(c, rank, group);
      var selections :- Build(c, rank, fieldType, sets, head.path, head.schemaPath);
      Ok(head.(selections := selections))
  }

  // As the specification says

  /** CollectFields over one selection set, then every response key with the merged selection set of its fields. */
  ghost function Specified(c: Context, rank: string -> nat, objectType: string, sels: seq<Selection>,
                           path: seq<string>, schemaPath: seq<string>): Result<seq<Field>, BuildError>
    requires Ranked(c, rank)
    decreases Depth(c, rank, sels), 2, 0
  {
    var items := Collect(c, objectType, sels, {}).items;
    CollectDepth(c, rank, objectType, sels, {});
    if FailuresOf(items) != [] then Err(FailuresOf(items)[0])
    else SpecifiedKeys(c, rank, objectType, NodesOf(items), KeysOf(NodesOf(items)), path, schemaPath)
  }

  ghost function SpecifiedKeys(c: Context, rank: string -> nat, objectType: string, nodes: seq<FieldNode>,
                               keys: seq<string>, path: seq<string>, schemaPath: seq<string>):
    Result<seq<Field>, BuildError>
    requires Ranked(c, rank) && forall key | key in keys :: key in KeysOf(nodes)
    decreases NodesDepth(c, rank, nodes), 1, |keys|
  {
    if keys == [] then Ok([])
    else
      var n := |keys| - 1;
      var front :- SpecifiedKeys(c, rank, objectType, nodes, keys[..n], path, schemaPath);
      GroupNonEmpty(nodes, keys[n]);
      GroupDepth(c, rank, nodes, keys[n]);
      var field :- SpecifiedField(c, rank, objectType, keys[n], Group(nodes, keys[n]), path, schemaPath);
      Ok(front + [field])
  }

  ghost function SpecifiedField(c: Context, rank: string -> nat, objectType: string, key: string,
                                group: seq<FieldNode>, path: seq<string>, schemaPath: seq<string>):
    Result<Field, BuildError>
    requires Ranked(c, rank) && group != []
    decreases NodesDepth(c, rank, group), 0, 0
  {
    var head :- Head(c, objectType, key, group[0], path, schemaPath);
    var merged := Concat(SetsOf(group));
    if merged == [] then Ok(head)
    else
      var fieldType :- ObjectTypeOf(c, objectType, head);
      SetsDepth(c, rank, group);
      var selections :- Specified(c, rank, fieldType, merged, head.path, head.schemaPath);
      Ok(head.(selections := selections))
  }

  // They agree

  ghost function FullFrom(c: Context, rank: string -> nat, objectType: string): seq<Selection> -> seq<Item>
    requires Ranked(c, rank)
  {
    (sels: seq<Selection>) => Full(c, rank, objectType, sels)
  }

  lemma {:induction false} FullConcat(c: Context, rank: string -> nat, objectType: string, a: seq<Selection>,
                                      b: seq<Selection>)
    requires Ranked(c, rank)
    ensures Full(c, rank, objectType, a + b) == Full(c, rank, objectType, a) + Full(c, rank, objectType, b)
  {
    if a == [] {
      assert a + b == b;
    } else {
      FullConcat(c, rank, objectType, a[1..], b);
      assert (a + b)[1..] == a[1..] + b && (a + b)[0] == a[0];
      ConcatAssociates(FullOne(c, rank, objectType, a[0]), Full(c, rank, objectType, a[1..]),
                       Full(c, rank, objectType, b));
    }
  }

  lemma {:induction false} FullOfConcat(c: Context, rank: string -> nat, objectType: string,
                                        sets: seq<seq<Selection>>)
    requires Ranked(c, rank)
    ensures Full(c, rank, objectType, Concat(sets)) == FlatMap(sets, FullFrom(c, rank, objectType))
  {
    if sets != [] {
      FullOfConcat(c, rank, objectType, sets[..|sets| - 1]);
      FullConcat(c, rank, objectType, Concat(sets[..|sets| - 1]), sets[|sets| - 1]);
    }
  }

  lemma {:induction false} CollectEachIsFull(c: Context, rank: string -> nat, objectType: string,
                                             sets: seq<seq<Selection>>)
    requires Ranked(c, rank)
    ensures Dedup(CollectEach(c, objectType, sets)) == Dedup(FlatMap(sets, FullFrom(c, rank, objectType)))
  {
    if sets != [] {
      var front, last := sets[..|sets| - 1], sets[|sets| - 1];
      var former := CollectEach(c, objectType, front);
      CollectEachIsFull(c, rank, objectType, front);
      CollectIsFull(c, rank, objectType, last, {}, MaxRank(rank, last), former);
      DedupAppend(former, FlatMap(front, FullFrom(c, rank, objectType)), Full(c, rank, objectType, last));
    }
  }

  /** Collecting selection sets one after the other and collecting once over the same sets joined, whatever sets are
      repeated, give the same items up to repetitions. */
  lemma CollectEachIsCollect(c: Context, rank: string -> nat, objectType: string, sets: seq<seq<Selection>>,
                             others: seq<seq<Selection>>)
    requires Ranked(c, rank) && Dedup(sets) == Dedup(others)
    ensures Dedup(CollectEach(c, objectType, sets)) == Dedup(Collect(c, objectType, Concat(others), {}).items)
  {
    CollectEachIsFull(c, rank, objectType, sets);
    FlatMapSame(sets, others, FullFrom(c, rank, objectType));
    FullOfConcat(c, rank, objectType, others);
    CollectIsFull(c, rank, objectType, Concat(others), {}, MaxRank(rank, Concat(others)), []);
    var once, full := Collect(c, objectType, Concat(others), {}).items, Full(c, rank, objectType, Concat(others));
    assert [] + once == once && [] + full == full;
  }

  /** What a normalization step reads of the items does not depend on repetitions. */
  lemma SameReadings(a: seq<Item>, b: seq<Item>)
    requires Dedup(a) == Dedup(b)
    ensures FailuresOf(a) != [] <==> FailuresOf(b) != []
    ensures FailuresOf(a) != [] ==> FailuresOf(a)[0] == FailuresOf(b)[0]
    ensures Dedup(NodesOf(a)) == Dedup(NodesOf(b))
    ensures KeysOf(NodesOf(a)) == KeysOf(NodesOf(b))
  {
    FlatMapSame(a, b, FailureOf);
    SameFirst(FailuresOf(a), FailuresOf(b));
    FlatMapSame(a, b, FoundOf);
    FlatMapSame(NodesOf(a), NodesOf(b), KeyOf);
  }

  lemma SameFirst<T>(a: seq<T>, b: seq<T>)
    requires Dedup(a) == Dedup(b)
    ensures a != [] <==> b != []
    ensures a != [] ==> a[0] == b[0]
  {
    if a != [] {
      DedupFirst(a);
    }
    if b != [] {
      DedupFirst(b);
    }
  }

  /** The federator normalizes as the specification says: merging the selection sets of a response key one after the
      other, each with its own visited fragments, gives the same fields, in the same order, and the same error, as
      collecting once over their concatenation. */
  lemma {:induction false} BuildIsSpecified(c: Context, rank: string -> nat, objectType: string,
                                            sets: seq<seq<Selection>>, others: seq<seq<Selection>>,
                                            path: seq<string>, schemaPath: seq<string>)
    requires Ranked(c, rank) && Dedup(sets) == Dedup(others)
    ensures Build(c, rank, objectType, sets, path, schemaPath) ==
            Specified(c, rank, objectType, Concat(others), path, schemaPath)
    decreases Depth(c, rank, Concat(sets)), 2, 0
  {
    var a, b := CollectEach(c, objectType, sets), Collect(c, objectType, Concat(others), {}).items;
    CollectEachIsCollect(c, rank, objectType, sets, others);
    SameReadings(a, b);
    if FailuresOf(a) == [] {
      CollectEachDepth(c, rank, objectType, sets);
      KeysAreSpecified(c, rank, objectType, NodesOf(a), NodesOf(b), KeysOf(NodesOf(a)), path, schemaPath);
    }
  }

  lemma {:induction false} KeysAreSpecified(c: Context, rank: string -> nat, objectType: string,
                                            nodes: seq<FieldNode>, others: seq<FieldNode>, keys: seq<string>,
                                            path: seq<string>, schemaPath: seq<string>)
    requires Ranked(c, rank) && Dedup(nodes) == Dedup(others) && KeysOf(nodes) == KeysOf(others)
    requires forall key | key in keys :: key in KeysOf(nodes)
    ensures BuildKeys(c, rank, objectType, nodes, keys, path, schemaPath) ==
            SpecifiedKeys(c, rank, objectType, others, keys, path, schemaPath)
    decreases NodesDepth(c, rank, nodes), 1, |keys|
  {
    if keys != [] {
      var n := |keys| - 1;
      KeysAreSpecified(c, rank, objectType, nodes, others, keys[..n], path, schemaPath);
      GroupNonEmpty(nodes, keys[n]);
      GroupNonEmpty(others, keys[n]);
      GroupDepth(c, rank, nodes, keys[n]);
      FlatMapSame(nodes, others, InGroup(keys[n]));
      FieldIsSpecified(c, rank, objectType, keys[n], Group(nodes, keys[n]), Group(others, keys[n]), path, schemaPath);
    }
  }

  lemma {:induction false} FieldIsSpecified(c: Context, rank: string -> nat, objectType: string, key: string,
                                            group: seq<FieldNode>, others: seq<FieldNode>, path: seq<string>,
                                            schemaPath: seq<string>)
    requires Ranked(c, rank) && Dedup(group) == Dedup(others) && group != [] && others != []
    ensures BuildField(c, rank, objectType, key, group, path, schemaPath) ==
            SpecifiedField(c, rank, objectType, key, others, path, schemaPath)
    decreases NodesDepth(c, rank, group), 0, 0
  {
    SameFirst(group, others);
    FlatMapSame(group, others, SetOf);
    SameFirst(SetsOf(group), SetsOf(others));
    MergedEmpty(others);
    SetsDepth(c, rank, group);
    var head := Head(c, objectType, key, group[0], path, schemaPath);
    if head.Ok? {
      var fieldType := ObjectTypeOf(c, objectType, head.value);
      if fieldType.Ok? {
        BuildIsSpecified(c, rank, fieldType.value, SetsOf(group), SetsOf(others), head.value.path,
                         head.value.schemaPath);
      }
    }
  }

  /** A field is a leaf when its group selects nothing. */
  lemma {:induction false} MergedEmpty(group: seq<FieldNode>)
    ensures Concat(SetsOf(group)) == [] <==> SetsOf(group) == []
  {
    var sets := SetsOf(group);
    if sets != [] {
      var last := sets[|sets| - 1];
      FlatMapMember(group, SetOf, last);
      assert last in sets;
      var i :| 0 <= i < |group| && last in SetOf(group[i]);
      assert last != [];
    }
  }

  // The shape of the result

  /** Response keys are unique at every level, and every field's path is its parent's path and its response key, so a
      path names one field of the tree. */
  lemma {:induction false} BuildWellShaped(c: Context, rank: string -> nat, objectType: string,
                                           sets: seq<seq<Selection>>, path: seq<string>, schemaPath: seq<string>)
    requires Ranked(c, rank)
    ensures var r := Build(c, rank, objectType, sets, path, schemaPath);
            r.Ok? ==> WellShaped(r.value, path)
    decreases Depth(c, rank, Concat(sets)), 2, 0
  {
    var nodes := NodesOf(CollectEach(c, objectType, sets));
    CollectEachDepth(c, rank, objectType, sets);
    DedupMembers(FlatMap(nodes, KeyOf));
    BuildKeysWellShaped(c, rank, objectType, nodes, KeysOf(nodes), path, schemaPath);
  }

  predicate Keyed(fields: seq<Field>, keys: seq<string>) {
    |fields| == |keys| && forall i | 0 <= i < |keys| :: fields[i].responseKey == keys[i]
  }

  lemma SnocWellShaped(fields: seq<Field>, keys: seq<string>, f: Field, at: seq<string>)
    requires keys != [] && Keyed(fields, keys[..|keys| - 1]) && WellShaped(fields, at)
    requires forall i, j | 0 <= i < j < |keys| :: keys[i] != keys[j]
    requires f.responseKey == keys[|keys| - 1] && f.path == at + [f.responseKey] && WellShaped(f.selections, f.path)
    ensures Keyed(fields + [f], keys) && WellShaped(fields + [f], at)
  {
  }

  lemma {:induction false} BuildKeysWellShaped(c: Context, rank: string -> nat, objectType: string,
                                               nodes: seq<FieldNode>, keys: seq<string>, path: seq<string>,
                                               schemaPath: seq<string>)
    requires Ranked(c, rank) && forall key | key in keys :: key in KeysOf(nodes)
    requires forall i, j | 0 <= i < j < |keys| :: keys[i] != keys[j]
    ensures var r := BuildKeys(c, rank, objectType, nodes, keys, path, schemaPath);
            r.Ok? ==> Keyed(r.value, keys) && WellShaped(r.value, path)
    decreases NodesDepth(c, rank, nodes), 1, |keys|
  {
    if keys != [] {
      var n := |keys| - 1;
      BuildKeysWellShaped(c, rank, objectType, nodes, keys[..n], path, schemaPath);
      GroupNonEmpty(nodes, keys[n]);
      GroupDepth(c, rank, nodes, keys[n]);
      BuildFieldWellShaped(c, rank, objectType, keys[n], Group(nodes, keys[n]), path, schemaPath);
      var front := BuildKeys(c, rank, objectType, nodes, keys[..n], path, schemaPath);
      var field := BuildField(c, rank, objectType, keys[n], Group(nodes, keys[n]), path, schemaPath);
      if front.Ok? && field.Ok? {
        SnocWellShaped(front.value, keys, field.value, path);
      }
    }
  }

  lemma {:induction false} BuildFieldWellShaped(c: Context, rank: string -> nat, objectType: string, key: string,
                                                group: seq<FieldNode>, path: seq<string>, schemaPath: seq<string>)
    requires Ranked(c, rank) && group != []
    ensures var r := BuildField(c, rank, objectType, key, group, path, schemaPath);
            r.Ok? ==> r.value.responseKey == key && r.value.path == path + [key] &&
                      WellShaped(r.value.selections, r.value.path)
    decreases NodesDepth(c, rank, group), 0, 0
  {
    SetsDepth(c, rank, group);
    var head := Head(c, objectType, key, group[0], path, schemaPath);
    if head.Ok? {
      var fieldType := ObjectTypeOf(c, objectType, head.value);
      if fieldType.Ok? {
        BuildWellShaped(c, rank, fieldType.value, SetsOf(group), head.value.path, head.value.schemaPath);
      }
    }
  }

  // What the fields are bound to

  /** Every field carries the field names from the root, the @sourceInfo of its name on the object type it is selected
      on, and selections on the object type its definition names. */
  predicate Bound(c: Context, objectType: string, fields: seq<Field>, at: seq<string>)
    decreases fields
  {
    forall f | f in fields ::
      && f.schemaPath == at + [f.name]
      && f.source == (if (objectType, f.name) in c.sources then Some(c.sources[(objectType, f.name)]) else None)
      && (f.selections != [] ==>
            f.definition.typ.BaseName() in c.objectTypes &&
            Bound(c, f.definition.typ.BaseName(), f.selections, f.schemaPath))
  }

  lemma {:induction false} BuildBound(c: Context, rank: string -> nat, objectType: string,
                                      sets: seq<seq<Selection>>, path: seq<string>, schemaPath: seq<string>)
    requires Ranked(c, rank)
    ensures var r := Build(c, rank, objectType, sets, path, schemaPath);
            r.Ok? ==> Bound(c, objectType, r.value, schemaPath)
    decreases Depth(c, rank, Concat(sets)), 2, 0
  {
    var nodes := NodesOf(CollectEach(c, objectType, sets));
    CollectEachDepth(c, rank, objectType, sets);
    BuildKeysBound(c, rank, objectType, nodes, KeysOf(nodes), path, schemaPath);
  }

  lemma {:induction false} BuildKeysBound(c: Context, rank: string -> nat, objectType: string,
                                          nodes: seq<FieldNode>, keys: seq<string>, path: seq<string>,
                                          schemaPath: seq<string>)
    requires Ranked(c, rank) && forall key | key in keys :: key in KeysOf(nodes)
    ensures var r := BuildKeys(c, rank, objectType, nodes, keys, path, schemaPath);
            r.Ok? ==> Bound(c, objectType, r.value, schemaPath)
    decreases NodesDepth(c, rank, nodes), 1, |keys|
  {
    if keys != [] {
      var n := |keys| - 1;
      BuildKeysBound(c, rank, objectType, nodes, keys[..n], path, schemaPath);
      GroupNonEmpty(nodes, keys[n]);
      GroupDepth(c, rank, nodes, keys[n]);
      BuildFieldBound(c, rank, objectType, keys[n], Group(nodes, keys[n]), path, schemaPath);
      var front := BuildKeys(c, rank, objectType, nodes, keys[..n], path, schemaPath);
      var field := BuildField(c, rank, objectType, keys[n], Group(nodes, keys[n]), path, schemaPath);
      if front.Ok? && field.Ok? {
        BoundSnoc(c, objectType, front.value, field.value, schemaPath);
      }
    }
  }

  lemma BoundSnoc(c: Context, objectType: string, fields: seq<Field>, f: Field, at: seq<string>)
    requires Bound(c, objectType, fields, at) && Bound(c, objectType, [f], at)
    ensures Bound(c, objectType, fields + [f], at)
  {
    assert f in [f];
  }

  lemma {:induction false} BuildFieldBound(c: Context, rank: string -> nat, objectType: string, key: string,
                                           group: seq<FieldNode>, path: seq<string>, schemaPath: seq<string>)
    requires Ranked(c, rank) && group != []
    ensures var r := BuildField(c, rank, objectType, key, group, path, schemaPath);
            r.Ok? ==> Bound(c, objectType, [r.value], schemaPath) && r.value.name == group[0].name
                      && group[0].definition == Some(r.value.definition)
    decreases NodesDepth(c, rank, group), 0, 0
  {
    SetsDepth(c, rank, group);
    var head := Head(c, objectType, key, group[0], path, schemaPath);
    if head.Ok? {
      var fieldType := ObjectTypeOf(c, objectType, head.value);
      if fieldType.Ok? {
        BuildBound(c, rank, fieldType.value, SetsOf(group), head.value.path, head.value.schemaPath);
      }
    }
  }
}
