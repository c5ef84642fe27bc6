/** Collecting the fields of a selection set: CollectFields of section 6.3.2 of the GraphQL specification (October
    2021), and what it collects when no fragment is skipped as visited. */
module Collection {
  import opened Wrappers
  import opened Sequences
  import opened Document

  /** One step of collection: a field collected, or an error met. */
  datatype Item = Found(field: FieldNode) | Failure(error: BuildError)

  datatype Collected = Collected(items: seq<Item>, visited: set<string>)

  ghost function Remaining(c: Context, visited: set<string>): nat {
    |c.fragments.Keys - visited|
  }

  lemma FewerRemain(c: Context, visited: set<string>, more: set<string>)
    requires visited <= more
    ensures Remaining(c, more) <= Remaining(c, visited)
    ensures forall name :: name in c.fragments && name !in visited && name in more ==>
              Remaining(c, more) < Remaining(c, visited)
  {
    var a, b := c.fragments.Keys - more, c.fragments.Keys - visited;
    if name :| name in c.fragments && name !in visited && name in more {
      assert name in b && name !in a;
    }
    assert b == a + (b - a);
    assert b != a ==> b - a != {};
  }

  /** The fields a selection set selects on an object type, in order. A fragment is followed once. */
  function Collect(c: Context, objectType: string, sels: seq<Selection>, visited: set<string>): (r: Collected)
    ensures visited <= r.visited
    decreases Remaining(c, visited), sels
  {
    if sels == [] then Collected([], visited)
    else
      var first := CollectOne(c, objectType, sels[0], visited);
      FewerRemain(c, visited, first.visited);
      var rest := Collect(c, objectType, sels[1..], first.visited);
      Collected(first.items + rest.items, rest.visited)
  }

  function CollectOne(c: Context, objectType: string, sel: Selection, visited: set<string>): (r: Collected)
    ensures visited <= r.visited
    decreases Remaining(c, visited), sel
  {
    match Included(c, sel.Directives())
    case Err(error) => Collected([Failure(error)], visited)
    case Ok(false) => Collected([], visited)
    case Ok(true) =>
      match sel
      case Select(field) => Collected([Found(field)], visited)
      case Spread(name, _) =>
        if name in visited then Collected([], visited)
        else if name !in c.fragments then Collected([Failure(UndefinedFragment(name))], visited + {name})
        else
          var fragment := c.fragments[name];
          FewerRemain(c, visited, visited + {name});
          if FragmentApplies(c, objectType, fragment.typeCondition)
          then Collect(c, objectType, fragment.selections, visited + {name})
          else Collected([], visited + {name})
      case Inline(condition, _, selections) =>
        if condition == "" || FragmentApplies(c, objectType, condition)
        then Collect(c, objectType, selections, visited)
        else Collected([], visited)
  }

  // Acyclic fragments

  /** One more than the highest rank of a fragment spread anywhere in the selections. */
  ghost function MaxRank(rank: string -> nat, sels: seq<Selection>): nat {
    if sels == [] then 0 else Max(MaxRankOne(rank, sels[0]), MaxRank(rank, sels[1..]))
  }

  ghost function MaxRankOne(rank: string -> nat, sel: Selection): nat {
    match sel
    case Select(field) => MaxRank(rank, field.selections)
    case Spread(name, _) => rank(name) + 1
    case Inline(_, _, selections) => MaxRank(rank, selections)
  }

  /** The fragments form no cycle: each one only spreads fragments of lower rank. */
  ghost predicate Ranked(c: Context, rank: string -> nat) {
    forall name | name in c.fragments :: MaxRank(rank, c.fragments[name].selections) <= rank(name)
  }

  /** What is collected when every fragment is followed every time. */
  ghost function Full(c: Context, rank: string -> nat, objectType: string, sels: seq<Selection>): seq<Item>
    requires Ranked(c, rank)
    decreases MaxRank(rank, sels), sels
  {
    if sels == [] then []
    else FullOne(c, rank, objectType, sels[0]) + Full(c, rank, objectType, sels[1..])
  }

  ghost function FullOne(c: Context, rank: string -> nat, objectType: string, sel: Selection): seq<Item>
    requires Ranked(c, rank)
    decreases MaxRankOne(rank, sel), sel
  {
    match Included(c, sel.Directives())
    case Err(error) => [Failure(error)]
    case Ok(false) => []
    case Ok(true) =>
      match sel
      case Select(field) => [Found(field)]
      case Spread(name, _) =>
        if name !in c.fragments then [Failure(UndefinedFragment(name))]
        else if FragmentApplies(c, objectType, c.fragments[name].typeCondition)
        then Full(c, rank, objectType, c.fragments[name].selections)
        else []
      case Inline(condition, _, selections) =>
        if condition == "" || FragmentApplies(c, objectType, condition)
        then Full(c, rank, objectType, selections)
        else []
  }

  /** What spreading a fragment collects in full. */
  ghost function FullSpread(c: Context, rank: string -> nat, objectType: string, name: string): seq<Item>
    requires Ranked(c, rank)
  {
    FullOne(c, rank, objectType, Spread(name, []))
  }

  /** Everything the visited fragments below `bound` select has been collected. */
  ghost predicate Seen(c: Context, rank: string -> nat, objectType: string, visited: set<string>, bound: nat,
                       acc: seq<Item>)
    requires Ranked(c, rank)
  {
    forall name | name in visited && rank(name) < bound ::
      forall x | x in FullSpread(c, rank, objectType, name) :: x in acc
  }

  lemma SeenExtends(c: Context, rank: string -> nat, objectType: string, visited: set<string>, bound: nat,
                    acc: seq<Item>, more: seq<Item>, lower: nat)
    requires Ranked(c, rank) && Seen(c, rank, objectType, visited, bound, acc)
    requires lower <= bound && forall x | x in acc :: x in more
    ensures Seen(c, rank, objectType, visited, lower, more)
  {
  }

  lemma DedupSameMembers<T>(a: seq<T>, b: seq<T>)
    requires Dedup(a) == Dedup(b)
    ensures forall x :: x in a <==> x in b
  {
    DedupMembers(a);
    DedupMembers(b);
  }

  /** Following a fragment only once loses nothing but repetitions: whatever has been collected before, what is
      collected with the fragments visited is, up to repetitions, what is collected in full. */
  lemma {:induction false} CollectIsFull(c: Context, rank: string -> nat, objectType: string, sels: seq<Selection>,
                                         visited: set<string>, bound: nat, acc: seq<Item>)
    requires Ranked(c, rank) && MaxRank(rank, sels) <= bound && Seen(c, rank, objectType, visited, bound, acc)
    ensures var r := Collect(c, objectType, sels, visited);
            && Dedup(acc + r.items) == Dedup(acc + Full(c, rank, objectType, sels))
            && Seen(c, rank, objectType, r.visited, bound, acc + r.items)
            && (forall name | name in r.visited && name !in visited :: rank(name) < bound)
    decreases Remaining(c, visited), sels
  {
    if sels == [] {
    } else {
      var first := CollectOne(c, objectType, sels[0], visited);
      FewerRemain(c, visited, first.visited);
      CollectOneIsFull(c, rank, objectType, sels[0], visited, bound, acc);
      CollectIsFull(c, rank, objectType, sels[1..], first.visited, bound, acc + first.items);
      var rest := Collect(c, objectType, sels[1..], first.visited);
      var fullFirst, fullRest := FullOne(c, rank, objectType, sels[0]), Full(c, rank, objectType, sels[1..]);
      ConcatAssociates(acc, first.items, rest.items);
      ConcatAssociates(acc, fullFirst, fullRest);
      DedupAppend(acc + first.items, acc + fullFirst, fullRest);
    }
  }

  lemma {:induction false} CollectOneIsFull(c: Context, rank: string -> nat, objectType: string, sel: Selection,
                                            visited: set<string>, bound: nat, acc: seq<Item>)
    requires Ranked(c, rank) && MaxRankOne(rank, sel) <= bound && Seen(c, rank, objectType, visited, bound, acc)
    ensures var r := CollectOne(c, objectType, sel, visited);
            && Dedup(acc + r.items) == Dedup(acc + FullOne(c, rank, objectType, sel))
            && Seen(c, rank, objectType, r.visited, bound, acc + r.items)
            && (forall name | name in r.visited && name !in visited :: rank(name) < bound)
    decreases Remaining(c, visited), sel, 1
  {
    var r := CollectOne(c, objectType, sel, visited);
    SeenExtends(c, rank, objectType, visited, bound, acc, acc + r.items, bound);
    if Included(c, sel.Directives()) == Ok(true) {
      match sel {
        case Select(_) =>
        case Inline(condition, _, selections) =>
          if condition == "" || FragmentApplies(c, objectType, condition) {
            CollectIsFull(c, rank, objectType, selections, visited, bound, acc);
          }
        case Spread(name, _) =>
          assert FullOne(c, rank, objectType, sel) == FullSpread(c, rank, objectType, name);
          if name in visited {
            DedupRepeat(acc, FullSpread(c, rank, objectType, name));
            assert acc + [] == acc;
          } else {
            SpreadIsFull(c, rank, objectType, sel, visited, bound, acc);
            assert r == CollectOne(c, objectType, Spread(name, []), visited);
          }
      }
    }
  }

  lemma {:induction false} SpreadIsFull(c: Context, rank: string -> nat, objectType: string, sel: Selection,
                                        visited: set<string>, bound: nat, acc: seq<Item>)
    requires Ranked(c, rank) && sel.Spread? && sel.name !in visited && rank(sel.name) < bound
    requires Seen(c, rank, objectType, visited, bound, acc)
    ensures var r := CollectOne(c, objectType, Spread(sel.name, []), visited);
            && Dedup(acc + r.items) == Dedup(acc + FullSpread(c, rank, objectType, sel.name))
            && Seen(c, rank, objectType, r.visited, bound, acc + r.items)
            && (forall n | n in r.visited && n !in visited :: rank(n) < bound)
    decreases Remaining(c, visited), sel, 0
  {
    var name := sel.name;
    var entered := visited + {name};
    var r := CollectOne(c, objectType, Spread(name, []), visited);
    if name in c.fragments && FragmentApplies(c, objectType, c.fragments[name].typeCondition) {
      var sels := c.fragments[name].selections;
      FewerRemain(c, visited, entered);
      SeenExtends(c, rank, objectType, visited, bound, acc, acc, rank(name));
      assert Seen(c, rank, objectType, entered, rank(name), acc);
      CollectIsFull(c, rank, objectType, sels, entered, rank(name), acc);
      DedupSameMembers(acc + r.items, acc + Full(c, rank, objectType, sels));
    }
    forall n | n in r.visited && rank(n) < bound
      ensures forall x | x in FullSpread(c, rank, objectType, n) :: x in acc + r.items
    {
    }
  }

  // What is collected

  /** The selections a selection stands for on an object type. */
  function Body(c: Context, objectType: string, sel: Selection): seq<Selection> {
    match sel
    case Select(_) => []
    case Spread(name, _) =>
      if name in c.fragments && FragmentApplies(c, objectType, c.fragments[name].typeCondition)
      then c.fragments[name].selections else []
    case Inline(condition, _, selections) =>
      if condition == "" || FragmentApplies(c, objectType, condition) then selections else []
  }

  /** A way from a selection set to a field, through included selections and fragments that apply. */
  ghost predicate Route(c: Context, objectType: string, sels: seq<Selection>, route: seq<Selection>, field: FieldNode)
    decreases |route|
  {
    && route != [] && route[0] in sels && Included(c, route[0].Directives()) == Ok(true)
    && if |route| == 1 then route[0] == Select(field)
       else Route(c, objectType, Body(c, objectType, route[0]), route[1..], field)
  }

  ghost predicate Reached(c: Context, objectType: string, sels: seq<Selection>, field: FieldNode) {
    exists route :: IsRoute(c, objectType, sels, route, field)
  }

  ghost predicate IsRoute(c: Context, objectType: string, sels: seq<Selection>, route: seq<Selection>, field: FieldNode)
  {
    Route(c, objectType, sels, route, field)
  }

  lemma {:induction false} FullMember(c: Context, rank: string -> nat, objectType: string, sels: seq<Selection>,
                                      x: Item)
    requires Ranked(c, rank)
    ensures x in Full(c, rank, objectType, sels) <==>
            exists i :: 0 <= i < |sels| && x in FullOne(c, rank, objectType, sels[i])
  {
    if sels != [] {
      FullMember(c, rank, objectType, sels[1..], x);
      assert forall i | 0 <= i < |sels| - 1 :: sels[1..][i] == sels[i + 1];
      if x in Full(c, rank, objectType, sels[1..]) {
        var i :| 0 <= i < |sels[1..]| && x in FullOne(c, rank, objectType, sels[1..][i]);
        assert x in FullOne(c, rank, objectType, sels[i + 1]);
      }
      if i :| 0 <= i < |sels| && x in FullOne(c, rank, objectType, sels[i]) {
        if i > 0 {
          assert x in FullOne(c, rank, objectType, sels[1..][i - 1]);
        }
      }
    }
  }

  lemma FullOneBody(c: Context, rank: string -> nat, objectType: string, sel: Selection, field: FieldNode)
    requires Ranked(c, rank)
    ensures Found(field) in FullOne(c, rank, objectType, sel) <==>
            && Included(c, sel.Directives()) == Ok(true)
            && (sel == Select(field) || Found(field) in Full(c, rank, objectType, Body(c, objectType, sel)))
  {
  }

  lemma {:induction false} RoutedIsFull(c: Context, rank: string -> nat, objectType: string, sels: seq<Selection>,
                                        route: seq<Selection>, field: FieldNode)
    requires Ranked(c, rank) && Route(c, objectType, sels, route, field)
    ensures Found(field) in Full(c, rank, objectType, sels)
    decreases |route|
  {
    var i :| 0 <= i < |sels| && sels[i] == route[0];
    if |route| > 1 {
      RoutedIsFull(c, rank, objectType, Body(c, objectType, route[0]), route[1..], field);
    }
    FullOneBody(c, rank, objectType, sels[i], field);
    FullMember(c, rank, objectType, sels, Found(field));
  }

  lemma {:induction false} FullIsRouted(c: Context, rank: string -> nat, objectType: string, sels: seq<Selection>,
                                        field: FieldNode) returns (route: seq<Selection>)
    requires Ranked(c, rank) && Found(field) in Full(c, rank, objectType, sels)
    ensures Route(c, objectType, sels, route, field)
    decreases MaxRank(rank, sels), sels
  {
    FullMember(c, rank, objectType, sels, Found(field));
    var i :| 0 <= i < |sels| && Found(field) in FullOne(c, rank, objectType, sels[i]);
    FullOneBody(c, rank, objectType, sels[i], field);
    if sels[i] == Select(field) {
      route := [sels[i]];
    } else {
      MaxRankMember(rank, sels, i);
      var rest := FullIsRouted(c, rank, objectType, Body(c, objectType, sels[i]), field);
      route := [sels[i]] + rest;
      assert route[1..] == rest;
    }
  }

  lemma {:induction false} MaxRankMember(rank: string -> nat, sels: seq<Selection>, i: nat)
    requires i < |sels|
    ensures MaxRankOne(rank, sels[i]) <= MaxRank(rank, sels)
  {
    if i > 0 {
      MaxRankMember(rank, sels[1..], i - 1);
    }
  }

  /** Exactly the fields are collected that some way through included selections and applying fragments leads to. */
  lemma CollectedIffRouted(c: Context, rank: string -> nat, objectType: string, sels: seq<Selection>, field: FieldNode)
    requires Ranked(c, rank)
    ensures Found(field) in Collect(c, objectType, sels, {}).items <==>
            Reached(c, objectType, sels, field)
  {
    CollectedMember(c, rank, objectType, sels, Found(field));
    if Found(field) in Full(c, rank, objectType, sels) {
      var route := FullIsRouted(c, rank, objectType, sels, field);
      assert IsRoute(c, objectType, sels, route, field);
    }
    if route :| IsRoute(c, objectType, sels, route, field) {
      RoutedIsFull(c, rank, objectType, sels, route, field);
    }
  }

  lemma CollectedMember(c: Context, rank: string -> nat, objectType: string, sels: seq<Selection>, x: Item)
    requires Ranked(c, rank)
    ensures x in Collect(c, objectType, sels, {}).items <==> x in Full(c, rank, objectType, sels)
  {
    var items, full := Collect(c, objectType, sels, {}).items, Full(c, rank, objectType, sels);
    CollectIsFull(c, rank, objectType, sels, {}, MaxRank(rank, sels), []);
    assert [] + items == items && [] + full == full;
    DedupSameMembers(items, full);
  }
}
