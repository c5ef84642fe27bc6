/** Exactly when a provider's projected answer can be read like the provider's own data. */
module Fidelity {
  import opened Json
  import opened Paths
  import Arguments
  import opened Selection
  import opened Printing
  import Requests
  import Readability

  /** What is read at `path` from the data cut down to what the operation selects. */
  function Projected(root: Node, data: map<string, Json>, path: seq<string>): Json {
    ValueAt(Object(ProjectRoot(root, data)), path)
  }

  predicate ReadBack(root: Node, data: map<string, Json>, path: seq<string>) {
    Projected(root, data, path) == ValueAt(Object(data), path)
  }

  /** A list at `path` is still a list of the same length in the projected answer. */
  predicate ListKept(root: Node, data: map<string, Json>, path: seq<string>) {
    var full, answer := ValueAt(Object(data), path), Projected(root, data, path);
    full.List? ==> answer.List? && |answer.items| == |full.items|
  }

  // Any operation

  /** What is read at a position is the data's own value, whatever the data, exactly when the operation leads to a leaf
      there. */
  lemma ReadBackIff(root: Node, path: seq<string>)
    requires Distinct(root) && path != []
    ensures (forall data :: ReadBack(root, data, path)) <==>
            RootReaches(root, path) && RootReached(root, path).children == []
  {
    if !RootReaches(root, path) {
      NotReachedRoot(map[], root, path, List([]));
      assert !ReadBack(root, Chain(map[], path, List([])).members, path);
    } else if RootReached(root, path).children != [] {
      var value := Extra(map[], RootReached(root, path));
      ExtraIsCut(map[], RootReached(root, path));
      ProjectRootChain(map[], root, path, value);
      assert !ReadBack(root, Chain(map[], path, value).members, path);
    } else {
      forall data ensures ReadBack(root, data, path) {
        ProjectRootCovers(root, data);
        ReadReachedRoot(root, data, ProjectRoot(root, data), path);
      }
    }
  }

  /** A list is seen item by item, whatever the data, exactly when the operation leads to it or to a leaf above it. */
  lemma ListKeptIff(root: Node, path: seq<string>)
    requires Distinct(root) && path != []
    ensures (forall data :: ListKept(root, data, path)) <==> RootReaches(root, path)
  {
    if RootReaches(root, path) {
      forall data ensures ListKept(root, data, path) {
        ProjectRootCovers(root, data);
        ReadReachedRoot(root, data, ProjectRoot(root, data), path);
      }
    } else {
      NotReachedRoot(map[], root, path, List([]));
      assert !ListKept(root, Chain(map[], path, List([])).members, path);
    }
  }

  // The operation sent for requested fields and arguments

  /** Every requested path reads the same from the projected answer as from the data, whatever the data. */
  ghost predicate ReadsFaithfully(fields: seq<string>, args: seq<Arguments.ProviderArgument>) {
    forall data, p | p in fields :: ReadBack(PrintArguments(Tree(fields), args).root, data, Split(p))
  }

  /** A fetch returns what it was asked for, for every provider, just when nothing is asked for below a requested
      path. With arguments on the way to what is requested, as planning attaches them, that is when no requested path
      lies below another: requesting both `a` and `a.b` cuts the value of `a` down to its `b`. */
  lemma FaithfulIffPrefixFree(fields: seq<string>, args: seq<Arguments.ProviderArgument>)
    ensures ReadsFaithfully(fields, args) <==> Readability.AllUndivided(Asked(fields, args), fields)
    ensures Requests.Above(args, fields) ==> (ReadsFaithfully(fields, args) <==> PrefixFree(fields))
  {
    var root, asked := PrintArguments(Tree(fields), args).root, Asked(fields, args);
    PrintedTreeDistinct(fields, args);
    PrintedSelectsExactly(fields, args);
    forall p | p in fields
      ensures (forall data :: ReadBack(root, data, Split(p))) <==> Undivided(asked, Split(p))
    {
      ReadBackIff(root, Split(p));
      RootReachesIff(root, asked, Split(p));
      assert Covered(asked, Split(p));
    }
  }

  /** A list at `list` is seen item by item in the projected answer, whatever the data. */
  ghost predicate ShowsList(fields: seq<string>, args: seq<Arguments.ProviderArgument>, list: string) {
    forall data :: ListKept(PrintArguments(Tree(fields), args).root, data, Split(list))
  }

  /** A list is seen by the consumer just when something is requested, or an argument attached, at or below it, or the
      whole value of a position above it is sent. */
  lemma ListShownIffRequested(fields: seq<string>, args: seq<Arguments.ProviderArgument>, list: string)
    ensures ShowsList(fields, args, list) <==> Covered(Asked(fields, args), Split(list))
  {
    PrintedTreeDistinct(fields, args);
    PrintedSelectsExactly(fields, args);
    ListKeptIff(PrintArguments(Tree(fields), args).root, Split(list));
    RootReachesIff(PrintArguments(Tree(fields), args).root, Asked(fields, args), Split(list));
  }

  // The data that shows a difference

  /** Nested objects down to `value`, with the members `others` beside the way. */
  function Chain(others: map<string, Json>, path: seq<string>, value: Json): (data: Json)
    ensures path != [] ==> data.Object?
  {
    if path == [] then value else Object(others[path[0] := Chain(others, path[1..], value)])
  }

  lemma {:induction false} ValueAtChain(others: map<string, Json>, path: seq<string>, value: Json)
    ensures ValueAt(Chain(others, path, value), path) == value
  {
    if path != [] {
      ValueAtChain(others, path[1..], value);
    }
  }

  /** What is read along the chain is its value, cut down to what is selected there. */
  lemma {:induction false} ProjectChain(others: map<string, Json>, node: Node, path: seq<string>, value: Json)
    requires Distinct(node) && Reaches(node, path)
    ensures ValueAt(Chain(others, path, value), path) == value
    ensures ValueAt(Project(node, Chain(others, path, value)), path) == Project(Reached(node, path), value)
    decreases |path|
  {
    ValueAtChain(others, path, value);
    if path != [] && node.children != [] {
      var k := node.Index(path[0]);
      ProjectMember(node, node.children, Chain(others, path, value).members, k);
      ProjectChain(others, node.children[k], path[1..], value);
    }
  }

  lemma ProjectRootChain(others: map<string, Json>, root: Node, path: seq<string>, value: Json)
    requires Distinct(root) && RootReaches(root, path)
    ensures ValueAt(Chain(others, path, value), path) == value
    ensures Projected(root, Chain(others, path, value).members, path) == Project(RootReached(root, path), value)
  {
    var k := root.Index(path[0]);
    ValueAtChain(others, path, value);
    ProjectMember(root, root.children, Chain(others, path, value).members, k);
    ProjectChain(others, root.children[k], path[1..], value);
  }

  /** Nothing is read where the tree does not lead. */
  lemma {:induction false} NotReached(others: map<string, Json>, node: Node, path: seq<string>, value: Json)
    requires Distinct(node) && !Reaches(node, path)
    ensures ValueAt(Chain(others, path, value), path) == value
    ensures ValueAt(Project(node, Chain(others, path, value)), path) == Null
    decreases |path|
  {
    var k, members := node.Index(path[0]), Chain(others, path, value).members;
    ValueAtChain(others, path, value);
    if k < |node.children| {
      ProjectMember(node, node.children, members, k);
      NotReached(others, node.children[k], path[1..], value);
    } else {
      NotProjected(node, node.children, members, path[0]);
      NullReadsNull(path[1..]);
    }
  }

  lemma NotReachedRoot(others: map<string, Json>, root: Node, path: seq<string>, value: Json)
    requires Distinct(root) && path != [] && !RootReaches(root, path)
    ensures ValueAt(Chain(others, path, value), path) == value
    ensures Projected(root, Chain(others, path, value).members, path) == Null
  {
    var k, members := root.Index(path[0]), Chain(others, path, value).members;
    ValueAtChain(others, path, value);
    if k < |root.children| {
      ProjectMember(root, root.children, members, k);
      NotReached(others, root.children[k], path[1..], value);
    } else {
      NotProjected(root, root.children, members, path[0]);
      NullReadsNull(path[1..]);
    }
  }

  lemma NullReadsNull(path: seq<string>)
    ensures ValueAt(Null, path) == Null
  {
  }

  /** An object with a field that no child of `node` selects. */
  function Extra(others: map<string, Json>, node: Node): Json {
    Object(others[Fresh(node.children) := List([])])
  }

  lemma ExtraIsCut(others: map<string, Json>, node: Node)
    requires node.children != []
    ensures Project(node, Extra(others, node)) != Extra(others, node)
  {
    FreshIsNew(node.children);
    NotProjected(node, node.children, Extra(others, node).members, Fresh(node.children));
    assert Fresh(node.children) in Extra(others, node).members;
  }

  /** A name no child has: longer than all of theirs. */
  function Fresh(children: seq<Node>): string {
    if children == [] then "x" else children[0].name + Fresh(children[1..])
  }

  lemma {:induction false} FreshIsNew(children: seq<Node>)
    ensures |Fresh(children)| > 0
    ensures forall c | c in children :: |c.name| < |Fresh(children)|
  {
    if children != [] {
      FreshIsNew(children[1..]);
    }
  }
}
