/** The selection tree of a provider operation, and what a provider answers to it. */
module Selection {
  import opened Wrappers
  import opened Json
  import opened Paths

  /** An argument attached to a provider field: its name and the variable that carries its value. */
  datatype Attached = Attached(name: string, variable: string)

  /** A provider field of the tree; the root's name is unused. */
  datatype Node = Node(name: string, arguments: seq<Attached>, children: seq<Node>) {
    /** The position of the first child named `key`, or the number of children. */
    function Index(key: string): (k: nat)
      ensures k <= |children|
      ensures forall i | 0 <= i < k :: children[i].name != key
      ensures k < |children| ==> children[k].name == key
    {
      IndexIn(children, key)
    }
  }

  function IndexIn(children: seq<Node>, key: string): (k: nat)
    ensures k <= |children|
    ensures forall i | 0 <= i < k :: children[i].name != key
    ensures k < |children| ==> children[k].name == key
  {
    if children == [] then 0
    else if children[0].name == key then 0
    else 1 + IndexIn(children[1..], key)
  }

  /** The tree with the field at `segments` added, once, carrying `arguments` in addition to its own. */
  function Grow(node: Node, segments: seq<string>, arguments: seq<Attached>): (grown: Node)
    ensures grown.name == node.name
    decreases |segments|
  {
    if segments == [] then node.(arguments := node.arguments + arguments)
    else
      var k := node.Index(segments[0]);
      if k < |node.children| then
        node.(children := node.children[k := Grow(node.children[k], segments[1..], arguments)])
      else
        node.(children := node.children + [Grow(Node(segments[0], [], []), segments[1..], arguments)])
  }

  function AddPath(node: Node, path: string): Node {
    Grow(node, Split(path), [])
  }

  const EMPTY_TREE: Node := Node("", [], [])

  /** The tree that selects `fields`, added in order. */
  function Tree(fields: seq<string>): Node {
    if fields == [] then EMPTY_TREE else AddPath(Tree(fields[..|fields| - 1]), fields[|fields| - 1])
  }

  function At(node: Node, segments: seq<string>): Option<Node>
    decreases |segments|
  {
    if segments == [] then Some(node)
    else
      var k := node.Index(segments[0]);
      if k < |node.children| then At(node.children[k], segments[1..]) else None
  }

  predicate Selects(node: Node, segments: seq<string>) {
    At(node, segments).Some?
  }

  /** No two siblings share a name, at any depth. */
  predicate Distinct(node: Node) {
    && (forall i, j | 0 <= i < j < |node.children| :: node.children[i].name != node.children[j].name)
    && (forall i | 0 <= i < |node.children| :: Distinct(node.children[i]))
  }

  // What growing a tree selects

  /** Growing selects exactly the new path and its ancestors in addition. */
  lemma {:induction false} GrowSelects(node: Node, p: seq<string>, arguments: seq<Attached>, q: seq<string>)
    ensures Selects(Grow(node, p, arguments), q) <==> Selects(node, q) || q <= p
    decreases |p|
  {
    if p == [] {
      if q != [] {
        assert Grow(node, p, arguments).children == node.children;
      }
    } else if q != [] {
      var k := node.Index(p[0]);
      var grown := Grow(node, p, arguments);
      var child := if k < |node.children| then node.children[k] else Node(p[0], [], []);
      GrowSelects(child, p[1..], arguments, q[1..]);
      GrowIndex(node, p, arguments, q[0]);
      if q[0] == p[0] {
        assert q <= p <==> q[1..] <= p[1..];
        if k == |node.children| && q[1..] != [] {
          assert !Selects(child, q[1..]);
        }
      } else {
        assert !(q <= p);
      }
    }
  }

  lemma GrowIndex(node: Node, p: seq<string>, arguments: seq<Attached>, key: string)
    requires p != []
    ensures var k, grown := node.Index(key), Grow(node, p, arguments);
            if key == p[0] then
              && grown.Index(key) == k < |grown.children|
              && grown.children[k] ==
                 Grow(if k < |node.children| then node.children[k] else Node(key, [], []), p[1..], arguments)
            else if k < |node.children| then grown.Index(key) == k && grown.children[k] == node.children[k]
            else grown.Index(key) == |grown.children|
  {
    var j, k, grown := node.Index(p[0]), node.Index(key), Grow(node, p, arguments);
    assert forall i | 0 <= i < |node.children| :: grown.children[i].name == node.children[i].name;
    if key == p[0] || k < |node.children| {
      FirstIsIndex(grown, key, k);
    } else {
      FirstIsIndex(grown, key, |grown.children|);
    }
  }

  lemma FirstIsIndex(node: Node, key: string, k: nat)
    requires k <= |node.children|
    requires forall i | 0 <= i < k :: node.children[i].name != key
    requires k < |node.children| ==> node.children[k].name == key
    ensures node.Index(key) == k
  {
  }

  lemma {:induction false} GrowDistinct(node: Node, p: seq<string>, arguments: seq<Attached>)
    requires Distinct(node)
    ensures Distinct(Grow(node, p, arguments))
    decreases |p|
  {
    if p != [] {
      var k := node.Index(p[0]);
      GrowDistinct(if k < |node.children| then node.children[k] else Node(p[0], [], []), p[1..], arguments);
    }
  }

  lemma {:induction false} TreeDistinct(fields: seq<string>)
    ensures Distinct(Tree(fields))
  {
    if fields != [] {
      TreeDistinct(fields[..|fields| - 1]);
      GrowDistinct(Tree(fields[..|fields| - 1]), Split(fields[|fields| - 1]), []);
    }
  }

  /** The selected paths are the prefixes of the requested ones. */
  lemma {:induction false} TreeSelects(fields: seq<string>, q: seq<string>)
    ensures Selects(Tree(fields), q) <==> q == [] || exists f :: f in fields && q <= Split(f)
  {
    if fields != [] {
      var front, last := fields[..|fields| - 1], fields[|fields| - 1];
      TreeSelects(front, q);
      GrowSelects(Tree(front), Split(last), [], q);
      assert fields == front + [last];
      if exists f :: f in front && q <= Split(f) {
        var f :| f in front && q <= Split(f);
        assert f in fields;
      }
      if q <= Split(last) {
        assert last in fields;
      }
    } else if q != [] {
      assert !Selects(EMPTY_TREE, q);
    }
  }

  lemma {:induction false} AtConcat(node: Node, p: seq<string>, q: seq<string>)
    ensures At(node, p + q) == if At(node, p).Some? then At(At(node, p).value, q) else None
    decreases |p|
  {
    if p == [] {
      assert p + q == q;
    } else {
      var k := node.Index(p[0]);
      if k < |node.children| {
        assert (p + q)[1..] == p[1..] + q;
        AtConcat(node.children[k], p[1..], q);
      }
    }
  }

  /** A node has no children just when no longer path is selected. */
  lemma LeafMeansMaximal(root: Node, p: seq<string>)
    requires Selects(root, p)
    ensures At(root, p).value.children == [] <==> forall key: string :: !Selects(root, p + [key])
  {
    var node := At(root, p).value;
    forall key: string ensures At(root, p + [key]) == At(node, [key]) {
      AtConcat(root, p, [key]);
    }
    if node.children != [] {
      var key := node.children[0].name;
      assert node.Index(key) == 0;
      assert Selects(node, [key]);
      assert Selects(root, p + [key]);
    }
  }

  /** Nothing asked for lies strictly below `path`. */
  predicate Undivided(asked: seq<string>, path: seq<string>) {
    forall x | x in asked :: !(path < Split(x))
  }

  /** No requested path lies strictly below another. */
  predicate PrefixFree(fields: seq<string>) {
    forall p | p in fields :: Undivided(fields, Split(p))
  }

  /** When no requested path lies below another, the requested paths are leaves of the tree. */
  lemma RequestedIsLeaf(fields: seq<string>, p: string)
    requires p in fields && PrefixFree(fields)
    ensures Selects(Tree(fields), Split(p)) && At(Tree(fields), Split(p)).value.children == []
  {
    TreeSelects(fields, Split(p));
    LeafMeansMaximal(Tree(fields), Split(p));
    forall key: string ensures !Selects(Tree(fields), Split(p) + [key]) {
      TreeSelects(fields, Split(p) + [key]);
      forall f | f in fields ensures !(Split(p) + [key] <= Split(f)) {
      }
    }
  }

  /** Every leaf of the tree is a requested path: nothing is selected that was not asked for. */
  lemma LeafIsRequested(fields: seq<string>, p: seq<string>)
    requires fields != [] || p != []
    requires Selects(Tree(fields), p) && At(Tree(fields), p).value.children == []
    ensures exists f :: f in fields && Split(f) == p
  {
    TreeSelects(fields, p);
    var f :| f in fields && p <= Split(f);
    if p < Split(f) {
      NextIsSelected(fields, p, f);
      LeafMeansMaximal(Tree(fields), p);
    }
  }

  lemma NextIsSelected(fields: seq<string>, p: seq<string>, f: string)
    requires f in fields && p < Split(f)
    ensures exists key: string :: Selects(Tree(fields), p + [key])
  {
    TreeSelects(fields, p + [Split(f)[|p|]]);
  }

  // Answers

  /** `answer` holds, at every selected position, what the provider's own data `full` holds there: the whole value at
      a leaf, the same list lengths and the same missing or scalar values above. */
  ghost predicate Covers(node: Node, full: Json, answer: Json)
    decreases node, full
  {
    if node.children == [] then full == answer
    else match (full, answer)
      case (Object(a), Object(b)) =>
        forall i | 0 <= i < |node.children| ::
          Covers(node.children[i], Get(a, node.children[i].name), Get(b, node.children[i].name))
      case (List(a), List(b)) => |a| == |b| && forall i | 0 <= i < |a| :: Covers(node, a[i], b[i])
      case _ => full == answer
  }

  /** The provider's data cut down to the selection: the answer of a provider that returns what it was asked for. */
  function Project(node: Node, full: Json): Json
    decreases node, full, 1
  {
    if node.children == [] then full
    else match full
      case Object(members) => Object(ProjectMembers(node, node.children, members))
      case List(items) => List(seq(|items|, i requires 0 <= i < |items| => Project(node, items[i])))
      case _ => full
  }

  function ProjectMembers(node: Node, children: seq<Node>, members: map<string, Json>): map<string, Json>
    requires forall c | c in children :: c in node.children
    decreases node, Object(members), 0, |children|
  {
    if children == [] then map[]
    else
      var rest := ProjectMembers(node, children[..|children| - 1], members);
      var last := children[|children| - 1];
      assert last in children;
      if last.name in members then rest[last.name := Project(last, members[last.name])] else rest
  }

  lemma {:induction false} ProjectMember(node: Node, children: seq<Node>, members: map<string, Json>, i: nat)
    requires forall c | c in children :: c in node.children
    requires i < |children|
    requires forall j, k | 0 <= j < k < |children| :: children[j].name != children[k].name
    ensures Get(ProjectMembers(node, children, members), children[i].name) ==
            if children[i].name in members then Project(children[i], members[children[i].name]) else Null
    decreases |children|
  {
    var front, last := children[..|children| - 1], children[|children| - 1];
    if i < |front| {
      ProjectMember(node, front, members, i);
    } else if last.name !in members {
      NotProjected(node, front, members, last.name);
    }
  }

  lemma {:induction false} NotProjected(node: Node, children: seq<Node>, members: map<string, Json>, key: string)
    requires forall c | c in children :: c in node.children
    requires forall c | c in children :: c.name != key
    ensures key !in ProjectMembers(node, children, members)
    decreases |children|
  {
    if children != [] {
      NotProjected(node, children[..|children| - 1], members, key);
    }
  }

  /** An operation's answer holds, under every name the root selects, what the provider's data holds there. The root is
      not a leaf even without children: an operation that selects nothing asks for nothing. */
  ghost predicate CoversRoot(root: Node, full: map<string, Json>, answer: map<string, Json>) {
    forall i | 0 <= i < |root.children| ::
      Covers(root.children[i], Get(full, root.children[i].name), Get(answer, root.children[i].name))
  }

  /** The provider's data cut down to what an operation selects. */
  function ProjectRoot(root: Node, full: map<string, Json>): map<string, Json> {
    ProjectMembers(root, root.children, full)
  }

  lemma ProjectRootCovers(root: Node, full: map<string, Json>)
    requires Distinct(root)
    ensures CoversRoot(root, full, ProjectRoot(root, full))
  {
    forall i | 0 <= i < |root.children|
      ensures Covers(root.children[i], Get(full, root.children[i].name),
                     Get(ProjectRoot(root, full), root.children[i].name))
    {
      var child := root.children[i];
      ProjectMember(root, root.children, full, i);
      ProjectCovers(child, Get(full, child.name));
      if child.name !in full {
        assert Project(child, Null) == Null;
      }
    }
  }

  lemma CoversRootSelf(root: Node, data: map<string, Json>)
    ensures CoversRoot(root, data, data)
  {
    forall i | 0 <= i < |root.children|
      ensures Covers(root.children[i], Get(data, root.children[i].name), Get(data, root.children[i].name))
    {
      CoversSelf(root.children[i], Get(data, root.children[i].name));
    }
  }

  // Reading where the tree leads

  /** The tree leads to `path`, or to a leaf above it, whose whole value is sent. */
  predicate Reaches(node: Node, path: seq<string>)
    decreases |path|
  {
    node.children == [] || path == [] ||
    (node.Index(path[0]) < |node.children| && Reaches(node.children[node.Index(path[0])], path[1..]))
  }

  /** The node at `path` or the leaf above it. */
  function Reached(node: Node, path: seq<string>): Node
    requires Reaches(node, path)
    decreases |path|
  {
    if node.children == [] || path == [] then node else Reached(node.children[node.Index(path[0])], path[1..])
  }

  /** The operation leads to `path`; its root, even without children, is not a leaf. */
  predicate RootReaches(root: Node, path: seq<string>) {
    path != [] && root.Index(path[0]) < |root.children| && Reaches(root.children[root.Index(path[0])], path[1..])
  }

  function RootReached(root: Node, path: seq<string>): Node
    requires RootReaches(root, path)
  {
    Reached(root.children[root.Index(path[0])], path[1..])
  }

  /** What is read where the tree leads, from an answer's part, is the provider's own as far as it is selected. */
  lemma {:induction false} ReadReached(node: Node, full: Json, answer: Json, path: seq<string>)
    requires Covers(node, full, answer) && Reaches(node, path)
    ensures Covers(Reached(node, path), ValueAt(full, path), ValueAt(answer, path))
    decreases |path|, full
  {
    var target := Reached(node, path);
    if node.children == [] {
      CoversSelf(target, ValueAt(full, path));
    } else if path != [] {
      var k := node.Index(path[0]);
      if full.Object? && answer.Object? {
        ReadReached(node.children[k], Get(full.members, path[0]), Get(answer.members, path[0]), path[1..]);
      } else if full.List? && answer.List? {
        var a, b := full.items, answer.items;
        forall i | 0 <= i < |a| ensures Covers(target, ValueAt(a[i], path), ValueAt(b[i], path)) {
          ReadReached(node, a[i], b[i], path);
        }
      } else {
        CoversSelf(target, ValueAt(full, path));
      }
    }
  }

  lemma ReadReachedRoot(root: Node, full: map<string, Json>, answer: map<string, Json>, path: seq<string>)
    requires CoversRoot(root, full, answer) && RootReaches(root, path)
    ensures Covers(RootReached(root, path), ValueAt(Object(full), path), ValueAt(Object(answer), path))
  {
    var k := root.Index(path[0]);
    assert root.children[k].name == path[0];
    ReadReached(root.children[k], Get(full, path[0]), Get(answer, path[0]), path[1..]);
  }

  // What leads where, in terms of the paths asked for

  /** The tree selects the paths asked for and their ancestors, nothing else. */
  ghost predicate SelectsExactly(root: Node, asked: seq<string>) {
    forall q :: Selects(root, q) <==> q == [] || exists x :: x in asked && q <= Split(x)
  }

  /** Something is asked for at or below `path`, or the whole value of a position above it. */
  predicate Covered(asked: seq<string>, path: seq<string>) {
    exists x | x in asked :: path <= Split(x) || (Split(x) < path && Undivided(asked, Split(x)))
  }

  /** An operation leads exactly to the covered positions, and to a leaf exactly where nothing is asked for below. */
  lemma RootReachesIff(root: Node, asked: seq<string>, path: seq<string>)
    requires SelectsExactly(root, asked) && path != []
    ensures RootReaches(root, path) <==> Covered(asked, path)
    ensures RootReaches(root, path) ==> (RootReached(root, path).children == [] <==> Undivided(asked, path))
  {
    if RootReaches(root, path) {
      ReachedIsCovered(root, asked, path);
    }
    if Covered(asked, path) {
      var x :| x in asked && (path <= Split(x) || (Split(x) < path && Undivided(asked, Split(x))));
      CoveredIsReached(root, asked, path, x);
    }
  }

  lemma ReachedIsCovered(root: Node, asked: seq<string>, path: seq<string>)
    requires SelectsExactly(root, asked) && RootReaches(root, path)
    ensures Covered(asked, path)
    ensures RootReached(root, path).children == [] <==> Undivided(asked, path)
  {
    var n := ReachedAt(root.children[root.Index(path[0])], path[1..]);
    n := n + 1;
    assert path[..n][1..] == path[1..][..n - 1];
    var p := path[..n];
    assert At(root, p) == Some(RootReached(root, path)) && Selects(root, p);
    var x :| x in asked && p <= Split(x);
    LeafIffUndivided(root, asked, p);
    if n == |path| {
      assert p == path;
    }
  }

  lemma CoveredIsReached(root: Node, asked: seq<string>, path: seq<string>, x: string)
    requires SelectsExactly(root, asked) && path != [] && x in asked
    requires path <= Split(x) || (Split(x) < path && Undivided(asked, Split(x)))
    ensures RootReaches(root, path)
  {
    var n := if path <= Split(x) then |path| else |Split(x)|;
    var p := path[..n];
    assert p <= Split(x) && p[1..] == path[1..][..n - 1];
    assert Selects(root, p);
    if n < |path| {
      assert p == Split(x);
      LeafIffUndivided(root, asked, p);
    }
    SelectedReaches(root.children[root.Index(path[0])], path[1..], n - 1);
  }

  lemma LeafIffUndivided(root: Node, asked: seq<string>, p: seq<string>)
    requires SelectsExactly(root, asked) && Selects(root, p)
    ensures At(root, p).value.children == [] <==> Undivided(asked, p)
  {
    LeafMeansMaximal(root, p);
    if x :| x in asked && p < Split(x) {
      assert Selects(root, p + [Split(x)[|p|]]);
    } else {
      forall key: string ensures !Selects(root, p + [key]) {
      }
    }
  }

  /** How far along `path` the reached node lies. */
  lemma {:induction false} ReachedAt(node: Node, path: seq<string>) returns (n: nat)
    requires Reaches(node, path)
    ensures n <= |path| && At(node, path[..n]) == Some(Reached(node, path))
    ensures n < |path| ==> Reached(node, path).children == []
    decreases |path|
  {
    if node.children == [] || path == [] {
      n := 0;
    } else {
      n := ReachedAt(node.children[node.Index(path[0])], path[1..]);
      n := n + 1;
      assert path[..n][1..] == path[1..][..n - 1];
    }
  }

  lemma {:induction false} SelectedReaches(node: Node, path: seq<string>, n: nat)
    requires n <= |path| && Selects(node, path[..n])
    requires n < |path| ==> At(node, path[..n]).value.children == []
    ensures Reaches(node, path)
    decreases n
  {
    if n > 0 && node.children != [] {
      assert path[..n][1..] == path[1..][..n - 1];
      SelectedReaches(node.children[node.Index(path[0])], path[1..], n - 1);
    }
  }

  /** The projected answer covers the data it was cut from. */
  lemma {:induction false} ProjectCovers(node: Node, full: Json)
    requires Distinct(node)
    ensures Covers(node, full, Project(node, full))
    decreases node, full
  {
    if node.children != [] {
      match full {
        case Object(members) =>
          forall i | 0 <= i < |node.children|
            ensures Covers(node.children[i], Get(members, node.children[i].name),
                           Get(ProjectMembers(node, node.children, members), node.children[i].name))
          {
            var child := node.children[i];
            ProjectMember(node, node.children, members, i);
            ProjectCovers(child, Get(members, child.name));
            if child.name !in members {
              assert Project(child, Null) == Null;
            }
          }
        case List(items) =>
          forall i | 0 <= i < |items| ensures Covers(node, items[i], Project(node, items[i])) {
            ProjectCovers(node, items[i]);
          }
        case _ =>
      }
    }
  }

  lemma {:induction false} CoversSelf(node: Node, data: Json)
    ensures Covers(node, data, data)
    decreases node, data
  {
    if node.children != [] {
      match data {
        case Object(members) =>
          forall i | 0 <= i < |node.children|
            ensures Covers(node.children[i], Get(members, node.children[i].name), Get(members, node.children[i].name))
          {
            CoversSelf(node.children[i], Get(members, node.children[i].name));
          }
        case List(items) =>
          forall i | 0 <= i < |items| ensures Covers(node, items[i], items[i]) {
            CoversSelf(node, items[i]);
          }
        case _ =>
      }
    }
  }
}
