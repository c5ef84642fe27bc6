/** Planning as plan.go does it: provider operations are created on first use and filled in place. */
module Planner {
  import opened Wrappers
  import opened Json
  import Paths
  import opened Fields
  import opened Arguments
  import opened Selection
  import opened Printing
  import opened Plan
  import opened Requests
  import opened Sequences

  /** A provider operation under construction. */
  class Fetch {
    const schemaId: string
    const key: string
    const args: seq<ProviderArgument>
    var fields: seq<string>
    var consumers: seq<Field>
    var root: Node
    var variables: seq<Variable>

    constructor (schemaId: string, key: string, args: seq<ProviderArgument>)
      ensures this.schemaId == schemaId && this.key == key && this.args == args
      ensures fields == [] && consumers == [] && root == Tree([]) && variables == []
    {
      this.schemaId, this.key, this.args := schemaId, key, args;
      fields, consumers, root, variables := [], [], EMPTY_TREE, [];
    }

    ghost function View(): FetchView
      reads this
    {
      FetchView(schemaId, key, args, fields, consumers)
    }

    /** This operation, still without arguments, is the one `view` describes. */
    ghost predicate Mirrors(view: FetchView)
      reads this
    {
      view == View() && root == Tree(fields) && variables == []
    }

    /** Requests `path`, unless it has been already. */
    method AddField(path: string)
      requires root == Tree(fields)
      modifies this`fields, this`root
      ensures fields == AddOnce(old(fields), path) && root == Tree(fields)
    {
      if path in fields {
        return;
      }
      fields := fields + [path];
      root := AddPath(root, path);
      assert fields[..|fields| - 1] == old(fields);
    }

    /** This operation is the one `view` describes, with its arguments attached. */
    ghost predicate IsPrinted(view: FetchView)
      reads this
    {
      view == View() && Printed(root, variables) == PrintArguments(Tree(fields), args)
    }

    /** Declares a variable for every argument and refers to it where the argument belongs. No two share a name. */
    method Print()
      requires root == Tree(fields)
      modifies this`root, this`variables
      ensures Printed(root, variables) == PrintArguments(Tree(fields), args)
    {
      variables := [];
      for i := 0 to |args|
        invariant Printed(root, variables) == PrintArguments(Tree(fields), args[..i])
      {
        Attach(args[i]);
        PrintOneMore(Tree(fields), args, i);
      }
      assert args[..|args|] == args;
    }

    method Attach(arg: ProviderArgument)
      modifies this`root, this`variables
      ensures Printed(root, variables) == PrintArgument(old(Printed(root, variables)), arg)
    {
      var name := FreshName(arg.name, NamesOf(variables));
      variables := variables + [Variable(name, arg.typ, arg.value)];
      root := Grow(root, Paths.Split(arg.path), [Attached(arg.name, name)]);
    }
  }

  /** The argument's name or, when it is taken, the name with the first numeric suffix from 2 on that is not. */
  method FreshName(base: string, taken: set<string>) returns (name: string)
    ensures name == FreeName(base, taken, 1)
  {
    name := base;
    var suffix := 2;
    while name in taken
      invariant suffix >= 2 && name == Candidate(base, suffix - 1)
      invariant FreeName(base, taken, 1) == FreeName(base, taken, suffix - 1)
      decreases |Untried(base, taken, suffix - 1)|
    {
      FailedTryUsesUpAName(base, taken, suffix - 1);
      name := base + "_" + Decimal(suffix);
      suffix := suffix + 1;
    }
  }

  lemma PrintOneMore(root: Node, args: seq<ProviderArgument>, i: nat)
    requires i < |args|
    ensures PrintArguments(root, args[..i + 1]) == PrintArgument(PrintArguments(root, args[..i]), args[i])
  {
    assert args[..i + 1][..i] == args[..i];
  }

  /** The operations are distinct objects of `repr`. */
  ghost predicate Owned(fetches: seq<Fetch>, repr: set<object>) {
    && (forall i | 0 <= i < |fetches| :: fetches[i] in repr)
    && (forall i, j | 0 <= i < j < |fetches| :: fetches[i] != fetches[j])
  }

  /** The key map finds the first operation with each key. */
  ghost predicate Leads(views: seq<FetchView>, fetches: seq<Fetch>, byKey: map<string, Fetch>) {
    && |views| == |fetches|
    && (forall k :: k in byKey <==> IndexOf(views, k) < |views|)
    && (forall k | k in byKey :: byKey[k] == fetches[IndexOf(views, k)])
  }

  /** Fields and their recorded keys lead to the same operations. */
  ghost predicate Sourced(keys: map<seq<string>, string>, sources: map<seq<string>, Fetch>, byKey: map<string, Fetch>) {
    && sources.Keys == keys.Keys
    && (forall p | p in sources :: keys[p] in byKey && sources[p] == byKey[keys[p]])
  }

  lemma LeadsSameKeys(a: seq<FetchView>, b: seq<FetchView>, fetches: seq<Fetch>, byKey: map<string, Fetch>)
    requires Leads(a, fetches, byKey)
    requires |a| == |b| && forall i | 0 <= i < |a| :: a[i].key == b[i].key
    ensures Leads(b, fetches, byKey)
  {
    forall k ensures IndexOf(b, k) == IndexOf(a, k) {
      SameKeys(a, b, k);
    }
  }

  lemma SourcedMore(keys: map<seq<string>, string>, sources: map<seq<string>, Fetch>, byKey: map<string, Fetch>,
                    fetch: Fetch)
    requires Sourced(keys, sources, byKey) && fetch.key !in byKey
    ensures Sourced(keys, sources, byKey[fetch.key := fetch])
  {
  }

  lemma SourcedUpdate(keys: map<seq<string>, string>, sources: map<seq<string>, Fetch>, byKey: map<string, Fetch>,
                      path: seq<string>, fetch: Fetch)
    requires Sourced(keys, sources, byKey) && fetch.key in byKey && byKey[fetch.key] == fetch
    ensures Sourced(keys[path := fetch.key], sources[path := fetch], byKey)
  {
  }

  lemma LeadsAppend(views: seq<FetchView>, fetches: seq<Fetch>, byKey: map<string, Fetch>, fetch: Fetch,
                    view: FetchView)
    requires Leads(views, fetches, byKey) && view.key !in byKey
    ensures Leads(views + [view], fetches + [fetch], byKey[view.key := fetch])
  {
    forall k ensures k in byKey[view.key := fetch] <==> IndexOf(views + [view], k) < |views| + 1
      ensures k in byKey[view.key := fetch] ==>
                byKey[view.key := fetch][k] == (fetches + [fetch])[IndexOf(views + [view], k)]
    {
      AppendedIndex(views, view, k);
    }
  }

  /** Where planning stands inside an object list: whose operation requests it, and under which two paths it is known.
      */
  datatype ElementScope = ElementScope(fetch: Fetch, declared: string, requested: string)

  class Planner {
    const marshal: Json -> string
    const bindings: seq<Binding>
    var fetches: seq<Fetch>
    var sources: map<seq<string>, Fetch>
    var byKey: map<string, Fetch>
    ghost var plan: PlanView  // the plan so far, as a value
    ghost var Repr: set<object>

    constructor (marshal: Json -> string, bindings: seq<Binding>)
      ensures this.marshal == marshal && this.bindings == bindings
      ensures Valid() && fresh(Repr) && plan == EMPTY_PLAN
    {
      this.marshal, this.bindings := marshal, bindings;
      fetches, sources, byKey, plan := [], map[], map[], EMPTY_PLAN;
      Repr := {this};
    }

    ghost predicate Mirrored()
      reads this, Repr
    {
      && Owned(fetches, Repr)
      && |plan.fetches| == |fetches|
      && (forall i | 0 <= i < |fetches| :: fetches[i].Mirrors(plan.fetches[i]))
    }

    ghost predicate Indexed()
      reads this
    {
      Leads(plan.fetches, fetches, byKey) && Sourced(plan.sources, sources, byKey)
    }

    /** The operations mirror the plan, and the maps lead to them. */
    ghost predicate Valid()
      reads this, Repr
    {
      this in Repr && Mirrored() && Indexed()
    }

    ghost predicate Knows(fetch: Fetch)
      reads this
    {
      fetch.key in byKey && byKey[fetch.key] == fetch
    }

    /** Operations are only added. */
    twostate predicate Grown()
      reads this
    {
      forall k | k in old(byKey) :: k in byKey && byKey[k] == old(byKey[k])
    }

    /** Changing one operation and its description alike keeps the mirror. */
    twostate lemma StillMirrored(k: nat)
      requires old(Mirrored()) && fetches == old(fetches) && Repr == old(Repr)
      requires k < |fetches| && plan.fetches == old(plan.fetches)[k := fetches[k].View()]
      requires fetches[k].Mirrors(fetches[k].View())
      requires forall o | o in fetches && o != fetches[k] :: unchanged(o)
      ensures Mirrored()
    {
      forall i | 0 <= i < |fetches| ensures fetches[i].Mirrors(plan.fetches[i]) {
        assert old(fetches[i].Mirrors(plan.fetches[i]));
        assert i != k ==> fetches[i] in fetches && fetches[i] != fetches[k];
      }
    }

    /** Adding an operation and its description keeps the mirror. */
    twostate lemma MirroredMore(new fetch: Fetch)
      requires old(Mirrored()) && fetches == old(fetches) + [fetch] && Repr == old(Repr) + {fetch}
      requires fetch !in old(Repr) && fetch.Mirrors(fetch.View())
      requires plan.fetches == old(plan.fetches) + [fetch.View()]
      requires forall i | 0 <= i < |old(fetches)| :: unchanged(old(fetches)[i])
      ensures Mirrored()
    {
    }

    lemma KnownIsOwned(fetch: Fetch)
      requires Valid() && Knows(fetch)
      ensures fetch in Repr && fetch in fetches
    {
      assert fetches[IndexOf(plan.fetches, fetch.key)] in Repr;
    }

    /** Goes through the bindings in order and keeps those that apply and whose target is new, then sorts them. */
    method Arguments(field: Field) returns (r: Result<seq<ProviderArgument>, PlanError>)
      requires field.source.Some?
      ensures r == ArgumentsFor(bindings, field)
    {
      var seen: set<(string, string)> := {};
      var args: seq<ProviderArgument> := [];
      assert bindings[0..] == bindings;
      assert Select(bindings, field, {}).Ok? ==>
             [] + Select(bindings, field, {}).value == Select(bindings, field, {}).value;
      for i := 0 to |bindings|
        invariant Select(bindings, field, {}) ==
                  match Select(bindings[i..], field, seen)
                  case Ok(rest) => Ok(args + rest)
                  case Err(e) => Err(e)
      {
        var b := bindings[i];
        assert bindings[i..][0] == b && bindings[i..][1..] == bindings[i + 1..];
        if !Applies(b, field) || Target(b) in seen {
          continue;
        }
        var typ := ArgumentType(b);
        if typ.Err? {
          return Err(typ.error);
        }
        var arg := ProviderArgument(b.mapping.targetArgPath, b.mapping.targetArgName, typ.value, b.value);
        ghost var rest := Select(bindings[i + 1..], field, seen + {Target(b)});
        assert rest.Ok? ==> args + ([arg] + rest.value) == (args + [arg]) + rest.value;
        seen := seen + {Target(b)};
        args := args + [arg];
      }
      assert bindings[|bindings|..] == [];
      assert args + [] == args;
      r := Ok(Sort(args));
    }

    /** Finds the operation by its key, or starts it. */
    method FetchFor(field: Field) returns (r: Result<Fetch, PlanError>)
      requires Valid() && field.source.Some?
      modifies this`fetches, this`byKey, this`plan, this`Repr
      ensures Valid() && Grown() && fresh(Repr - old(Repr))
      ensures match ArgumentsFor(bindings, field)
              case Err(e) => r == Err(e)
              case Ok(args) =>
                var key := Key(marshal, field.source.value.schemaId, args);
                && r.Ok? && Knows(r.value) && r.value.key == key
                && plan == old(plan).(fetches := Ensured(old(plan).fetches, field.source.value.schemaId, key, args))
    {
      var args := Arguments(field);
      if args.Err? {
        return Err(args.error);
      }
      var key := Key(marshal, field.source.value.schemaId, args.value);
      if key in byKey {
        return Ok(byKey[key]);
      }
      var fetch := new Fetch(field.source.value.schemaId, key, args.value);
      Append(fetch);
      r := Ok(fetch);
    }

    /** Adds an operation to the plan and to the key map. */
    method Append(fetch: Fetch)
      requires Valid() && fetch.key !in byKey && fetch !in Repr && fetch.Mirrors(fetch.View())
      modifies this`fetches, this`byKey, this`plan, this`Repr
      ensures Valid() && Knows(fetch) && Repr == old(Repr) + {fetch}
      ensures fetches == old(fetches) + [fetch] && byKey == old(byKey)[fetch.key := fetch]
      ensures plan == old(plan).(fetches := old(plan).fetches + [fetch.View()])
    {
      LeadsAppend(plan.fetches, fetches, byKey, fetch, fetch.View());
      SourcedMore(plan.sources, sources, byKey, fetch);
      byKey := byKey[fetch.key := fetch];
      fetches := fetches + [fetch];
      Repr := Repr + {fetch};
      plan := plan.(fetches := plan.fetches + [fetch.View()]);
      MirroredMore(fetch);
    }

    /** Plans `fs`, inside the provider list `scope` if any. */
    method Fields(fs: seq<Field>, scope: Option<ElementScope>) returns (r: Result<(), PlanError>)
      requires Valid() && (scope.Some? ==> Knows(scope.value.fetch))
      modifies Repr
      ensures Valid() && Grown() && fresh(Repr - old(Repr))
      ensures scope.Some? ==>
                match ScopedPaths(fs, scope.value.declared, scope.value.requested)
                case Err(e) => r == Err(e)
                case Ok(paths) => r.Ok? && plan == Requested(old(plan), scope.value.fetch.key, paths)
      ensures scope.None? ==>
                match Entries(bindings, fs)
                case Err(e) => r == Err(e)
                case Ok(entries) => r.Ok? && AllSourced(entries) && plan == AssignAll(marshal, old(plan), entries)
      decreases fs, 0
    {
      ghost var paths: seq<string> := [];
      ghost var entries: seq<Entry> := [];
      ghost var start := plan;
      assert fs[0..] == fs;
      assert Done(fs, scope, start, 0, paths, entries) by {
        NothingDone(fs, scope);
      }
      for i := 0 to |fs|
        invariant Valid() && Grown() && fresh(Repr - old(Repr))
        invariant Done(fs, scope, start, i, paths, entries)
      {
        ghost var before := plan;
        var one := PlanField(fs[i], scope);
        assert fs[i..][0] == fs[i] && fs[i..][1..] == fs[i + 1..];
        if one.Err? {
          return one;
        }
        if scope.Some? {
          ghost var more := ScopedPath(fs[i], scope.value.declared, scope.value.requested).value;
          ScopedStep(fs, scope.value, start, i, paths, more);
          paths := paths + more;
        } else {
          ghost var more := EntriesOf(bindings, fs[i]).value;
          EntriesStep(fs, start, i, entries, more);
          entries := entries + more;
        }
      }
      assert fs[|fs|..] == [];
      assert paths + [] == paths && entries + [] == entries;
      r := Ok(());
    }

    /** The first `i` fields have been planned from `start`, and asked for `paths` or made `entries`. */
    ghost predicate Done(fs: seq<Field>, scope: Option<ElementScope>, start: PlanView, i: nat, paths: seq<string>,
                         entries: seq<Entry>)
      requires i <= |fs|
      reads this
    {
      match scope
      case Some(s) =>
        && plan == Requested(start, s.fetch.key, paths)
        && ScopedPaths(fs, s.declared, s.requested) ==
           Joined(paths, ScopedPaths(fs[i..], s.declared, s.requested))
      case None =>
        && AllSourced(entries)
        && plan == AssignAll(marshal, start, entries)
        && Entries(bindings, fs) == Joined(entries, Entries(bindings, fs[i..]))
    }

    lemma NothingDone(fs: seq<Field>, scope: Option<ElementScope>)
      ensures scope.Some? ==> ScopedPaths(fs, scope.value.declared, scope.value.requested) ==
                              Joined([], ScopedPaths(fs[0..], scope.value.declared, scope.value.requested))
      ensures Entries(bindings, fs) == Joined([], Entries(bindings, fs[0..]))
    {
      assert fs[0..] == fs;
      JoinedNothing(Entries(bindings, fs));
      if scope.Some? {
        JoinedNothing(ScopedPaths(fs, scope.value.declared, scope.value.requested));
      }
    }

    lemma ScopedStep(fs: seq<Field>, s: ElementScope, start: PlanView, i: nat, paths: seq<string>, more: seq<string>)
      requires i < |fs| && ScopedPath(fs[i], s.declared, s.requested) == Ok(more)
      ensures Joined(paths, ScopedPaths(fs[i..], s.declared, s.requested)) ==
              Joined(paths + more, ScopedPaths(fs[i + 1..], s.declared, s.requested))
      ensures Requested(Requested(start, s.fetch.key, paths), s.fetch.key, more) ==
              Requested(start, s.fetch.key, paths + more)
    {
      assert fs[i..][0] == fs[i] && fs[i..][1..] == fs[i + 1..];
      var rest := ScopedPaths(fs[i + 1..], s.declared, s.requested);
      assert rest.Ok? ==> paths + (more + rest.value) == (paths + more) + rest.value;
      RequestedTwice(start, s.fetch.key, paths, more);
    }

    lemma EntriesStep(fs: seq<Field>, start: PlanView, i: nat, entries: seq<Entry>, more: seq<Entry>)
      requires i < |fs| && EntriesOf(bindings, fs[i]) == Ok(more) && AllSourced(entries) && AllSourced(more)
      ensures Joined(entries, Entries(bindings, fs[i..])) == Joined(entries + more, Entries(bindings, fs[i + 1..]))
      ensures AllSourced(entries + more)
      ensures AssignAll(marshal, AssignAll(marshal, start, entries), more) == AssignAll(marshal, start, entries + more)
    {
      assert fs[i..][0] == fs[i] && fs[i..][1..] == fs[i + 1..];
      var rest := Entries(bindings, fs[i + 1..]);
      assert rest.Ok? ==> entries + (more + rest.value) == (entries + more) + rest.value;
      AssignTwice(marshal, start, entries, more);
    }

    method PlanField(f: Field, scope: Option<ElementScope>) returns (r: Result<(), PlanError>)
      requires Valid() && (scope.Some? ==> Knows(scope.value.fetch))
      modifies Repr
      ensures Valid() && Grown() && fresh(Repr - old(Repr))
      ensures scope.Some? ==>
                match ScopedPath(f, scope.value.declared, scope.value.requested)
                case Err(e) => r == Err(e)
                case Ok(paths) => r.Ok? && plan == Requested(old(plan), scope.value.fetch.key, paths)
      ensures scope.None? ==>
                match EntriesOf(bindings, f)
                case Err(e) => r == Err(e)
                case Ok(entries) => r.Ok? && AllSourced(entries) && plan == AssignAll(marshal, old(plan), entries)
      decreases f, 1
    {
      if f.IsTypename() {
        return Ok(());
      }
      if "__" <= f.name {
        return Err(IntrospectionField(f.name));
      }
      if f.IsSourced() {
        var provider := f.source.value.providerField;
        if scope.Some? {
          var requested := scope.value.requested + "." + Paths.RelativePath(provider, scope.value.declared);
          if f.IsObjectList() {
            r := Fields(f.selections, Some(ElementScope(scope.value.fetch, provider, requested)));
          } else {
            KnownIsOwned(scope.value.fetch);
            RequestedOne(plan, scope.value.fetch.key, requested);
            Request(scope.value.fetch, requested);
            r := Ok(());
          }
        } else {
          r := PlanSourced(f);
        }
      } else if f.IsList() && f.selections != [] {
        r := Err(ListWithoutSource(f.schemaPath));
      } else {
        r := Fields(f.selections, scope);
      }
    }

    /** Plans a field read directly from a provider, outside any list. */
    method PlanSourced(f: Field) returns (r: Result<(), PlanError>)
      requires Valid() && f.IsSourced() && !IsIntrospection(f)
      modifies Repr
      ensures Valid() && Grown() && fresh(Repr - old(Repr))
      ensures match EntriesOf(bindings, f)
              case Err(e) => r == Err(e)
              case Ok(entries) => r.Ok? && AllSourced(entries) && plan == AssignAll(marshal, old(plan), entries)
      decreases f, 0
    {
      var provider := f.source.value.providerField;
      var found := FetchFor(f);
      if found.Err? {
        return Err(found.error);
      }
      KnownIsOwned(found.value);
      Serve(found.value, f);
      if f.IsObjectList() {
        r := Fields(f.selections, Some(ElementScope(found.value, provider, provider)));
      } else {
        KnownIsOwned(found.value);
        RequestedOne(plan, found.value.key, provider);
        Request(found.value, provider);
        r := Ok(());
      }
      if r.Ok? {
        AssignInSteps(marshal, old(plan), EntriesOf(bindings, f).value[0]);
        AssignSingle(marshal, old(plan), EntriesOf(bindings, f).value);
      }
    }

    /** Every operation is as planned, and printed. */
    ghost predicate IsPrinted(plan: PlanView)
      reads this, Repr
    {
      && |plan.fetches| == |fetches|
      && (forall i | 0 <= i < |fetches| :: fetches[i] in Repr && fetches[i].IsPrinted(plan.fetches[i]))
      && sources.Keys == plan.sources.Keys
      && (forall p | p in sources :: sources[p] in fetches && sources[p].key == plan.sources[p])
    }

    method PrintAll()
      requires Valid()
      modifies Repr - {this}
      ensures IsPrinted(plan)
    {
      for i := 0 to |fetches|
        invariant |plan.fetches| == |fetches|
        invariant forall j | 0 <= j < |fetches| :: fetches[j] in Repr - {this}
        invariant forall j | i <= j < |fetches| :: fetches[j].Mirrors(plan.fetches[j])
        invariant forall j | 0 <= j < i :: fetches[j].IsPrinted(plan.fetches[j])
        invariant Owned(fetches, Repr)
      {
        fetches[i].Print();
      }
      forall p | p in sources ensures sources[p] in fetches && sources[p].key == plan.sources[p] {
        var k := IndexOf(plan.fetches, plan.sources[p]);
        assert fetches[k].IsPrinted(plan.fetches[k]);
      }
    }

    /** Records the operation as the field's source, and the field among its consumers. */
    method Serve(fetch: Fetch, f: Field)
      requires Valid() && Knows(fetch)
      modifies this`sources, this`plan, fetch`consumers
      ensures Valid()
      ensures plan == Served(old(plan), fetch.key, f)
    {
      SourcedUpdate(plan.sources, sources, byKey, f.path, fetch);
      sources := sources[f.path := fetch];
      plan := plan.(sources := plan.sources[f.path := fetch.key]);
      AddConsumer(fetch, f);
    }

    method AddConsumer(fetch: Fetch, f: Field)
      requires Valid() && Knows(fetch)
      modifies this`plan, fetch`consumers
      ensures Valid()
      ensures plan == old(plan).(fetches := WithConsumer(old(plan).fetches, fetch.key, f))
    {
      KnownIsOwned(fetch);
      fetch.consumers := fetch.consumers + [f];
      plan := plan.(fetches := WithConsumer(plan.fetches, fetch.key, f));
      assert Mirrored() by {
        StillMirrored(IndexOf(old(plan.fetches), fetch.key));
      }
      assert Indexed() by {
        LeadsSameKeys(old(plan).fetches, plan.fetches, fetches, byKey);
      }
    }

    method Request(fetch: Fetch, path: string)
      requires Valid() && Knows(fetch)
      modifies this`plan, fetch`fields, fetch`root
      ensures Valid()
      ensures plan == old(plan).(fetches := WithRequest(old(plan).fetches, fetch.key, path))
    {
      KnownIsOwned(fetch);
      ghost var k := IndexOf(plan.fetches, fetch.key);
      assert fetches[k] == fetch && fetch.Mirrors(plan.fetches[k]);
      fetch.AddField(path);
      assert fetch.Mirrors(plan.fetches[k].(fields := fetch.fields));
      plan := plan.(fetches := WithRequest(plan.fetches, fetch.key, path));
      assert Mirrored() by {
        StillMirrored(k);
      }
      assert Indexed() by {
        LeadsSameKeys(old(plan).fetches, plan.fetches, fetches, byKey);
      }
    }
  }

  function Joined<T>(done: seq<T>, rest: Result<seq<T>, PlanError>): Result<seq<T>, PlanError> {
    match rest
    case Ok(more) => Ok(done + more)
    case Err(e) => Err(e)
  }

  lemma JoinedNothing<T>(rest: Result<seq<T>, PlanError>)
    ensures Joined([], rest) == rest
  {
    if rest.Ok? {
      assert [] + rest.value == rest.value;
    }
  }

  lemma {:induction false} AppendedIndex(fetches: seq<FetchView>, last: FetchView, key: string)
    ensures IndexOf(fetches + [last], key) ==
            if IndexOf(fetches, key) < |fetches| then IndexOf(fetches, key)
            else if last.key == key then |fetches| else |fetches| + 1
  {
    if fetches != [] {
      assert (fetches + [last])[0] == fetches[0] && (fetches + [last])[1..] == fetches[1..] + [last];
      AppendedIndex(fetches[1..], last, key);
    } else {
      assert (fetches + [last])[1..] == [];
    }
  }

  predicate AllSourced(entries: seq<Entry>) {
    forall e | e in entries :: e.field.source.Some?
  }

  /** The plan after `paths` have been requested from the operation with `key`. */
  function Requested(plan: PlanView, key: string, paths: seq<string>): PlanView {
    var k := IndexOf(plan.fetches, key);
    if k == |plan.fetches| then plan
    else plan.(fetches := plan.fetches[k := plan.fetches[k].(fields := AddAll(plan.fetches[k].fields, paths))])
  }

  /** The plan after the operation with `key` has been recorded as the source of `f`. */
  function Served(plan: PlanView, key: string, f: Field): PlanView {
    if IndexOf(plan.fetches, key) == |plan.fetches| then plan
    else PlanView(WithConsumer(plan.fetches, key, f), plan.sources[f.path := key])
  }

  /** The fetches after `f` has been added to the consumers of the one with `key`. */
  function WithConsumer(fetches: seq<FetchView>, key: string, f: Field): (r: seq<FetchView>)
    ensures |r| == |fetches| && forall i | 0 <= i < |fetches| :: r[i].key == fetches[i].key
  {
    var k := IndexOf(fetches, key);
    if k == |fetches| then fetches else fetches[k := fetches[k].(consumers := fetches[k].consumers + [f])]
  }

  /** The fetches after `path` has been requested from the one with `key`. */
  function WithRequest(fetches: seq<FetchView>, key: string, path: string): (r: seq<FetchView>)
    ensures |r| == |fetches| && forall i | 0 <= i < |fetches| :: r[i].key == fetches[i].key
  {
    var k := IndexOf(fetches, key);
    if k == |fetches| then fetches else fetches[k := fetches[k].(fields := AddOnce(fetches[k].fields, path))]
  }

  lemma RequestedOne(plan: PlanView, key: string, path: string)
    ensures Requested(plan, key, [path]) == plan.(fetches := WithRequest(plan.fetches, key, path))
  {
    var k := IndexOf(plan.fetches, key);
    if k < |plan.fetches| {
      AddAllOne(plan.fetches[k].fields, path);
    }
  }

  lemma {:induction false} AddAllTwice(fields: seq<string>, a: seq<string>, b: seq<string>)
    ensures AddAll(AddAll(fields, a), b) == AddAll(fields, a + b)
    decreases |a|
  {
    if a == [] {
      assert a + b == b;
    } else {
      assert (a + b)[0] == a[0] && (a + b)[1..] == a[1..] + b;
      AddAllTwice(AddOnce(fields, a[0]), a[1..], b);
    }
  }

  lemma AddAllOne(fields: seq<string>, path: string)
    ensures AddAll(fields, [path]) == AddOnce(fields, path)
  {
    assert AddAll(fields, [path]) == AddAll(AddOnce(fields, path), [path][1..]);
  }

  lemma RequestedTwice(plan: PlanView, key: string, a: seq<string>, b: seq<string>)
    ensures Requested(Requested(plan, key, a), key, b) == Requested(plan, key, a + b)
  {
    var k := IndexOf(plan.fetches, key);
    if k < |plan.fetches| {
      SameKeys(plan.fetches, Requested(plan, key, a).fetches, key);
      AddAllTwice(plan.fetches[k].fields, a, b);
    }
  }

  lemma {:induction false} AssignTwice(marshal: Json -> string, plan: PlanView, a: seq<Entry>, b: seq<Entry>)
    requires AllSourced(a) && AllSourced(b)
    ensures AllSourced(a + b)
    ensures AssignAll(marshal, AssignAll(marshal, plan, a), b) == AssignAll(marshal, plan, a + b)
    decreases |a|
  {
    if a == [] {
      assert a + b == b;
    } else {
      assert (a + b)[0] == a[0] && (a + b)[1..] == a[1..] + b;
      assert a[0] in a && AllSourced(a[1..]);
      AssignTwice(marshal, Assign(marshal, plan, a[0]), a[1..], b);
    }
  }

  /** Assigning a field is looking its operation up, recording it as the source, listing the consumer and requesting its
      paths. */
  lemma AssignInSteps(marshal: Json -> string, plan: PlanView, e: Entry)
    requires e.field.source.Some?
    ensures var key := EntryKey(marshal, e);
            var ensured := plan.(fetches := Ensured(plan.fetches, e.field.source.value.schemaId, key, e.args));
            Requested(Served(ensured, key, e.field), key, e.paths) == Assign(marshal, plan, e)
  {
    var key := EntryKey(marshal, e);
    var k := IndexOf(plan.fetches, key);
    var ensured := PlanView(Ensured(plan.fetches, e.field.source.value.schemaId, key, e.args), plan.sources);
    BeforeIndex(plan.fetches, key);
    FirstKey(ensured.fetches, key, k);
    SameKeys(ensured.fetches, Served(ensured, key, e.field).fetches, key);
  }

  lemma AssignSingle(marshal: Json -> string, plan: PlanView, entries: seq<Entry>)
    requires |entries| == 1 && entries[0].field.source.Some?
    ensures AllSourced(entries) && AssignAll(marshal, plan, entries) == Assign(marshal, plan, entries[0])
  {
    assert AssignAll(marshal, Assign(marshal, plan, entries[0]), entries[1..]) == Assign(marshal, plan, entries[0]);
  }

  /** Plans the provider operations for a normalized operation. */
  method BuildPlan(marshal: Json -> string, bindings: seq<Binding>, fields: seq<Field>)
    returns (r: Result<Planner, PlanError>)
    ensures match PlanFor(marshal, bindings, fields)
            case Err(e) => r == Err(e)
            case Ok(plan) => r.Ok? && fresh(r.value) && r.value.IsPrinted(plan)
  {
    var p := new Planner(marshal, bindings);
    var planned := p.Fields(fields, None);
    if planned.Err? {
      return Err(planned.error);
    }
    p.PrintAll();
    r := Ok(p);
  }

  /** The provider fields the PDP must authorize, collected with a set of those seen. */
  method CollectRequired(fetches: seq<FetchView>) returns (fields: seq<RequiredField>)
    ensures fields == Dedup(AllFields(fetches))
  {
    var seen: set<RequiredField> := {};
    fields := [];
    for i := 0 to |fetches|
      invariant fields == Dedup(AllFields(fetches[..i]))
      invariant SeenAre(seen, AllFields(fetches[..i]))
    {
      assert fetches[..i + 1][..i] == fetches[..i];
      seen, fields := CollectFetch(fetches[i], seen, fields, AllFields(fetches[..i]));
    }
    assert fetches[..|fetches|] == fetches;
  }

  ghost predicate SeenAre(seen: set<RequiredField>, all: seq<RequiredField>) {
    forall x :: x in seen <==> x in all
  }

  method CollectFetch(f: FetchView, seen: set<RequiredField>, fields: seq<RequiredField>, ghost all: seq<RequiredField>)
    returns (seen': set<RequiredField>, fields': seq<RequiredField>)
    requires fields == Dedup(all) && SeenAre(seen, all)
    ensures fields' == Dedup(all + FieldsOf(f)) && SeenAre(seen', all + FieldsOf(f))
  {
    seen', fields' := seen, fields;
    ghost var done := all;
    for j := 0 to |f.fields|
      invariant done == all + FieldsOf(f)[..j]
      invariant fields' == Dedup(done) && SeenAre(seen', done)
    {
      var field := RequiredField(f.schemaId, f.fields[j]);
      assert done + [field] == all + FieldsOf(f)[..j + 1];
      done := done + [field];
      if field !in seen' {
        seen' := seen' + {field};
        fields' := fields' + [field];
      }
    }
    assert done == all + FieldsOf(f);
  }
}
