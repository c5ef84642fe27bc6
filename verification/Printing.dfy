/** Printing a provider operation: its variables, their names, and the arguments attached to the selection tree. */
module Printing {
  import opened Wrappers
  import Json
  import opened Paths
  import Fields
  import opened Arguments
  import opened Selection

  // Variable names

  /** A number in decimal digits. */
  function Decimal(n: nat): (s: string)
    ensures |s| >= 1
  {
    var digit := "0123456789"[n % 10];
    if n < 10 then [digit] else Decimal(n / 10) + [digit]
  }

  lemma {:induction false} DecimalInjective(m: nat, n: nat)
    requires Decimal(m) == Decimal(n)
    ensures m == n
  {
    var s := Decimal(m);
    assert s[|s| - 1] == "0123456789"[m % 10] == "0123456789"[n % 10];
    if m >= 10 && n >= 10 {
      assert s[..|s| - 1] == Decimal(m / 10) == Decimal(n / 10);
      DecimalInjective(m / 10, n / 10);
    }
  }

  /** The `i`-th name tried for a variable: the argument's name, then the name with suffix 2, 3 and so on. */
  function Candidate(base: string, i: nat): string {
    if i < 2 then base else base + "_" + Decimal(i)
  }

  lemma CandidatesDiffer(base: string, i: nat, j: nat)
    requires 1 <= i < j
    ensures Candidate(base, i) != Candidate(base, j)
  {
    if i == 1 {
      assert |Candidate(base, j)| > |base|;
    } else if Candidate(base, i) == Candidate(base, j) {
      var prefix := base + "_";
      assert Decimal(i) == Candidate(base, i)[|prefix|..] == Candidate(base, j)[|prefix|..] == Decimal(j);
      DecimalInjective(i, j);
    }
  }

  /** The taken names that are not among the first `i` candidates: each failed try uses one up. */
  ghost function Untried(base: string, taken: set<string>, i: nat): set<string> {
    set n | n in taken && forall j | 1 <= j < i :: n != Candidate(base, j)
  }

  lemma FailedTryUsesUpAName(base: string, taken: set<string>, i: nat)
    requires 1 <= i && Candidate(base, i) in taken
    ensures |Untried(base, taken, i + 1)| < |Untried(base, taken, i)|
  {
    var name := Candidate(base, i);
    forall j | 1 <= j < i ensures name != Candidate(base, j) {
      CandidatesDiffer(base, j, i);
    }
    assert name in Untried(base, taken, i) && name !in Untried(base, taken, i + 1);
    SmallerSet(Untried(base, taken, i + 1), Untried(base, taken, i));
  }

  lemma {:induction false} SmallerSet<T>(a: set<T>, b: set<T>)
    requires a < b
    ensures |a| < |b|
  {
    assert b == a + (b - a);
    assert b - a != {};
  }

  /** The first candidate from the `i`-th on that is not taken. */
  function FreeName(base: string, taken: set<string>, i: nat): (name: string)
    requires 1 <= i
    ensures name !in taken
    decreases |Untried(base, taken, i)|
  {
    if Candidate(base, i) !in taken then Candidate(base, i)
    else
      FailedTryUsesUpAName(base, taken, i);
      FreeName(base, taken, i + 1)
  }

  /** The name given is the first candidate that is not taken. */
  lemma {:induction false} FreeNameIsFirst(base: string, taken: set<string>, i: nat) returns (k: nat)
    requires 1 <= i
    ensures i <= k && FreeName(base, taken, i) == Candidate(base, k) && Candidate(base, k) !in taken
    ensures forall j | i <= j < k :: Candidate(base, j) in taken
    decreases |Untried(base, taken, i)|
  {
    if Candidate(base, i) in taken {
      FailedTryUsesUpAName(base, taken, i);
      k := FreeNameIsFirst(base, taken, i + 1);
    } else {
      k := i;
    }
  }

  // The printed operation

  datatype Variable = Variable(name: string, typ: Fields.TypeRef, value: Json.Json)

  /** The selection tree with its arguments, and the operation's variables in order. */
  datatype Printed = Printed(root: Node, variables: seq<Variable>)

  function NamesOf(variables: seq<Variable>): set<string> {
    set v | v in variables :: v.name
  }

  function PrintArgument(p: Printed, arg: ProviderArgument): Printed {
    var name := FreeName(arg.name, NamesOf(p.variables), 1);
    Printed(
      Grow(p.root, Split(arg.path), [Attached(arg.name, name)]),
      p.variables + [Variable(name, arg.typ, arg.value)])
  }

  function PrintArguments(root: Node, args: seq<ProviderArgument>): Printed {
    if args == [] then Printed(root, [])
    else PrintArgument(PrintArguments(root, args[..|args| - 1]), args[|args| - 1])
  }

  predicate DistinctNames(vs: seq<Variable>) {
    forall i, j | 0 <= i < j < |vs| :: vs[i].name != vs[j].name
  }

  predicate Carry(vs: seq<Variable>, args: seq<ProviderArgument>) {
    |vs| == |args| && forall i | 0 <= i < |vs| :: vs[i].typ == args[i].typ && vs[i].value == args[i].value
  }

  /** Variable names are pairwise distinct, and the i-th variable carries the i-th argument's type and value. */
  lemma {:induction false} VariablesDistinct(root: Node, args: seq<ProviderArgument>)
    ensures DistinctNames(PrintArguments(root, args).variables)
    ensures Carry(PrintArguments(root, args).variables, args)
  {
    if args != [] {
      var n := |args| - 1;
      var before := PrintArguments(root, args[..n]);
      VariablesDistinct(root, args[..n]);
    }
  }

  /** The arguments the first arguments put on the provider field at `p`, each with its variable. */
  function ArgumentsAt(args: seq<ProviderArgument>, vs: seq<Variable>, p: seq<string>): seq<Attached>
    requires |args| == |vs|
  {
    if args == [] then []
    else
      var n := |args| - 1;
      ArgumentsAt(args[..n], vs[..n], p) + ArgumentAt(args[n], vs[n], p)
  }

  lemma {:induction false} GrowArguments(node: Node, p: seq<string>, arguments: seq<Attached>, q: seq<string>)
    requires Selects(Grow(node, p, arguments), q)
    ensures At(Grow(node, p, arguments), q).value.arguments ==
            (if Selects(node, q) then At(node, q).value.arguments else []) + (if q == p then arguments else [])
    decreases |p|
  {
    if p != [] && q != [] {
      var k := node.Index(p[0]);
      var child := if k < |node.children| then node.children[k] else Node(p[0], [], []);
      GrowIndex(node, p, arguments, q[0]);
      if q[0] == p[0] {
        assert q == p <==> q[1..] == p[1..];
        GrowArguments(child, p[1..], arguments, q[1..]);
        if k == |node.children| && q[1..] == [] {
          assert At(child, q[1..]).value.arguments == [];
        }
      }
    }
  }

  function Present(node: Node, q: seq<string>): seq<Attached> {
    if Selects(node, q) then At(node, q).value.arguments else []
  }

  /** Every provider field carries its own arguments and those whose path leads to it, in order, each through its own
      variable. */
  lemma {:induction false} ArgumentsAttached(root: Node, args: seq<ProviderArgument>, q: seq<string>)
    ensures |PrintArguments(root, args).variables| == |args|
    ensures Present(PrintArguments(root, args).root, q) ==
            Present(root, q) + ArgumentsAt(args, PrintArguments(root, args).variables, q)
  {
    VariablesDistinct(root, args);
    if args == [] {
      assert ArgumentsAt(args, [], q) == [];
    } else {
      var n := |args| - 1;
      var before, after := PrintArguments(root, args[..n]), PrintArguments(root, args);
      ArgumentsAttached(root, args[..n], q);
      PrintArgumentAt(before, args[n], q);
      assert after.variables[..n] == before.variables;
    }
  }

  function ArgumentAt(arg: ProviderArgument, v: Variable, q: seq<string>): seq<Attached> {
    if Split(arg.path) == q then [Attached(arg.name, v.name)] else []
  }

  lemma PrintArgumentAt(p: Printed, arg: ProviderArgument, q: seq<string>)
    ensures Present(PrintArgument(p, arg).root, q) ==
            Present(p.root, q) + ArgumentAt(arg, PrintArgument(p, arg).variables[|p.variables|], q)
  {
    var attached := [Attached(arg.name, FreeName(arg.name, NamesOf(p.variables), 1))];
    GrowSelects(p.root, Split(arg.path), attached, q);
    if Selects(PrintArgument(p, arg).root, q) {
      GrowArguments(p.root, Split(arg.path), attached, q);
    }
  }

  // Resolving the variables

  /** The value sent for the variable called `name`. */
  function Sent(vs: seq<Variable>, name: string): Option<Json.Json> {
    if vs == [] then None else if vs[0].name == name then Some(vs[0].value) else Sent(vs[1..], name)
  }

  /** Argument names with the values their variables carry. */
  function Resolved(attached: seq<Attached>, vs: seq<Variable>): seq<(string, Option<Json.Json>)> {
    seq(|attached|, i requires 0 <= i < |attached| => (attached[i].name, Sent(vs, attached[i].variable)))
  }

  /** The names and values of the arguments for the provider field at `q`, in order. */
  function Given(args: seq<ProviderArgument>, q: seq<string>): seq<(string, Option<Json.Json>)> {
    if args == [] then []
    else
      var last := args[|args| - 1];
      Given(args[..|args| - 1], q) + if Split(last.path) == q then [(last.name, Some(last.value))] else []
  }

  lemma {:induction false} SentByName(vs: seq<Variable>, i: nat)
    requires DistinctNames(vs) && i < |vs|
    ensures Sent(vs, vs[i].name) == Some(vs[i].value)
  {
    if i > 0 {
      assert vs[1..][i - 1] == vs[i] && vs[0].name != vs[i].name;
      SentByName(vs[1..], i - 1);
    }
  }

  /** What a provider receives at each field, once variables are replaced by the values sent for them, is exactly the
      arguments with that path, names and values, in order. */
  lemma ArgumentsResolved(fields: seq<string>, args: seq<ProviderArgument>, q: seq<string>)
    ensures var printed := PrintArguments(Tree(fields), args);
            Resolved(Present(printed.root, q), printed.variables) == Given(args, q)
  {
    var printed := PrintArguments(Tree(fields), args);
    var vs := printed.variables;
    VariablesDistinct(Tree(fields), args);
    ResolvedSoFar(args, vs, q, |args|);
    assert args[..|args|] == args && vs[..|vs|] == vs;
    assert Present(printed.root, q) == ArgumentsAt(args, vs, q) by {
      ArgumentsAttached(Tree(fields), args, q);
      TreeHasNoArguments(fields, q);
    }
  }

  lemma {:induction false} ResolvedSoFar(args: seq<ProviderArgument>, vs: seq<Variable>, q: seq<string>, n: nat)
    requires DistinctNames(vs) && Carry(vs, args) && n <= |args|
    ensures Resolved(ArgumentsAt(args[..n], vs[..n], q), vs) == Given(args[..n], q)
    decreases n
  {
    if n > 0 {
      ResolvedSoFar(args, vs, q, n - 1);
      SentByName(vs, n - 1);
      assert args[..n][..n - 1] == args[..n - 1] && vs[..n][..n - 1] == vs[..n - 1];
    } else {
      assert ArgumentsAt(args[..0], vs[..0], q) == [];
    }
  }

  // What the printed operation selects

  /** Attaching arguments selects the fields they are attached to and nothing else. */
  lemma {:induction false} PrintedSelects(root: Node, args: seq<ProviderArgument>, q: seq<string>)
    ensures Selects(PrintArguments(root, args).root, q) <==>
            Selects(root, q) || exists a :: a in args && q <= Split(a.path)
  {
    if args != [] {
      var n := |args| - 1;
      var before := PrintArguments(root, args[..n]);
      var name := FreeName(args[n].name, NamesOf(before.variables), 1);
      PrintedSelects(root, args[..n], q);
      GrowSelects(before.root, Split(args[n].path), [Attached(args[n].name, name)], q);
      assert args == args[..n] + [args[n]];
      if exists a :: a in args[..n] && q <= Split(a.path) {
        var a :| a in args[..n] && q <= Split(a.path);
        assert a in args;
      }
      if q <= Split(args[n].path) {
        assert args[n] in args;
      }
    }
  }

  /** No arguments are attached while fields are added. */
  lemma {:induction false} TreeHasNoArguments(fields: seq<string>, q: seq<string>)
    ensures Present(Tree(fields), q) == []
  {
    if fields != [] {
      var front, p := fields[..|fields| - 1], Split(fields[|fields| - 1]);
      TreeHasNoArguments(front, q);
      if Selects(Tree(fields), q) {
        GrowArguments(Tree(front), p, [], q);
      }
    }
  }

  /** The arguments lead to requested fields. */
  predicate Lead(args: seq<ProviderArgument>, fields: seq<string>) {
    forall a | a in args :: exists p | p in fields :: Split(a.path) <= Split(p)
  }

  /** The paths the printed operation is asked for: the requested ones and those its arguments are attached to. */
  function Asked(fields: seq<string>, args: seq<ProviderArgument>): (asked: seq<string>)
    ensures forall x :: x in asked <==> x in fields || exists a :: a in args && a.path == x
  {
    var paths := seq(|args|, i requires 0 <= i < |args| => args[i].path);
    assert forall i | 0 <= i < |args| :: paths[i] == args[i].path && args[i] in args;
    fields + paths
  }

  lemma PrintedSelectsExactly(fields: seq<string>, args: seq<ProviderArgument>)
    ensures SelectsExactly(PrintArguments(Tree(fields), args).root, Asked(fields, args))
  {
    var root, asked := PrintArguments(Tree(fields), args).root, Asked(fields, args);
    forall q ensures Selects(root, q) <==> q == [] || exists x :: x in asked && q <= Split(x) {
      PrintedSelects(Tree(fields), args, q);
      TreeSelects(fields, q);
      if a :| a in args && q <= Split(a.path) {
        assert a.path in asked;
      }
    }
  }

  lemma {:induction false} PrintedDistinct(root: Node, args: seq<ProviderArgument>)
    requires Distinct(root)
    ensures Distinct(PrintArguments(root, args).root)
  {
    if args != [] {
      var n := |args| - 1;
      var before := PrintArguments(root, args[..n]);
      PrintedDistinct(root, args[..n]);
      var attached := Attached(args[n].name, FreeName(args[n].name, NamesOf(before.variables), 1));
      GrowDistinct(before.root, Split(args[n].path), [attached]);
    }
  }

  lemma PrintedTreeDistinct(fields: seq<string>, args: seq<ProviderArgument>)
    ensures Distinct(PrintArguments(Tree(fields), args).root)
  {
    TreeDistinct(fields);
    PrintedDistinct(Tree(fields), args);
  }

  /** The printed operation has a leaf at `q`: a provider field whose whole value is sent. */
  predicate PrintedLeaf(fields: seq<string>, args: seq<ProviderArgument>, q: seq<string>) {
    var root := PrintArguments(Tree(fields), args).root;
    q != [] && Selects(root, q) && At(root, q).value.children == []
  }

  predicate IsRequested(fields: seq<string>, q: seq<string>) {
    exists p | p in fields :: Split(p) == q
  }

  /** Every printed leaf is a requested path exactly when every argument leads to a requested path: an argument on the
      way to nothing makes a leaf that nobody requested. */
  lemma LeavesRequestedIffLead(fields: seq<string>, args: seq<ProviderArgument>)
    ensures (forall q | PrintedLeaf(fields, args, q) :: IsRequested(fields, q)) <==> Lead(args, fields)
  {
    var asked := Asked(fields, args);
    PrintedSelectsExactly(fields, args);
    if Lead(args, fields) {
      forall q | PrintedLeaf(fields, args, q) ensures IsRequested(fields, q) {
        LeafIsAsked(fields, args, q);
      }
    } else {
      var a :| a in args && forall p | p in fields :: !(Split(a.path) <= Split(p));
      assert a.path in asked;
      var x := Deepest(asked, Split(a.path));
      DeepestIsLeaf(fields, args, Split(a.path), x);
      forall p | p in fields ensures Split(p) != Split(x) {
        assert !(Split(a.path) <= Split(p));
      }
      assert PrintedLeaf(fields, args, Split(x)) && !IsRequested(fields, Split(x));
    }
  }

  /** A printed leaf is where a path ends that is asked for; if arguments lead to requested paths, one of these. */
  lemma LeafIsAsked(fields: seq<string>, args: seq<ProviderArgument>, q: seq<string>)
    requires PrintedLeaf(fields, args, q) && Lead(args, fields)
    ensures IsRequested(fields, q)
  {
    var asked := Asked(fields, args);
    PrintedSelectsExactly(fields, args);
    LeafIffUndivided(PrintArguments(Tree(fields), args).root, asked, q);
    var x :| x in asked && q <= Split(x);
    var p :| p in fields && q <= Split(p) by {
      if x !in fields {
        var a :| a in args && a.path == x;
        var p :| p in fields && Split(a.path) <= Split(p);
      }
    }
    assert p in asked && !(q < Split(p));
  }

  /** A longest path asked for at or below `p`. */
  lemma {:induction false} Deepest(asked: seq<string>, p: seq<string>) returns (x: string)
    requires exists y | y in asked :: p <= Split(y)
    ensures x in asked && p <= Split(x)
    ensures forall y | y in asked && p <= Split(y) :: |Split(y)| <= |Split(x)|
  {
    var first, rest := asked[0], asked[1..];
    assert asked == [first] + rest;
    if y :| y in rest && p <= Split(y) {
      x := Deepest(rest, p);
      if p <= Split(first) && |Split(first)| > |Split(x)| {
        x := first;
      }
    } else {
      x := first;
    }
  }

  lemma DeepestIsLeaf(fields: seq<string>, args: seq<ProviderArgument>, p: seq<string>, x: string)
    requires x in Asked(fields, args) && p <= Split(x)
    requires forall y | y in Asked(fields, args) && p <= Split(y) :: |Split(y)| <= |Split(x)|
    ensures PrintedLeaf(fields, args, Split(x))
  {
    var asked := Asked(fields, args);
    PrintedSelectsExactly(fields, args);
    assert Selects(PrintArguments(Tree(fields), args).root, Split(x));
    forall y | y in asked ensures !(Split(x) < Split(y)) {
      assert Split(x) < Split(y) ==> p <= Split(y);
    }
    LeafIffUndivided(PrintArguments(Tree(fields), args).root, asked, Split(x));
  }

  /** When the arguments lead to requested fields, printing adds no selection: the printed leaves are requested paths,
      and so are covered by the policy check. */
  lemma PrintingAddsNoSelection(fields: seq<string>, args: seq<ProviderArgument>, q: seq<string>)
    requires Lead(args, fields)
    ensures Selects(PrintArguments(Tree(fields), args).root, q) <==> Selects(Tree(fields), q)
    ensures PrintedLeaf(fields, args, q) ==> IsRequested(fields, q)
  {
    SameSelection(fields, args, q);
    LeavesRequestedIffLead(fields, args);
  }

  lemma SameSelection(fields: seq<string>, args: seq<ProviderArgument>, q: seq<string>)
    requires Lead(args, fields)
    ensures Selects(PrintArguments(Tree(fields), args).root, q) <==> Selects(Tree(fields), q)
  {
    PrintedSelects(Tree(fields), args, q);
    TreeSelects(fields, q);
    if a :| a in args && q <= Split(a.path) {
      var p :| p in fields && Split(a.path) <= Split(p);
      assert q <= Split(p);
    }
  }
}
