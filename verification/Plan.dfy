/** What planning a normalized operation yields: which provider operation serves each field, and what it requests. */
module Plan {
  import opened Wrappers
  import opened Json
  import Paths
  import opened Fields
  import opened Arguments

  /** A provider operation: the fields it requests, in query order, and the consumer fields it serves directly. */
  datatype FetchView = FetchView(
    schemaId: string,
    key: string,
    args: seq<ProviderArgument>,
    fields: seq<string>,
    consumers: seq<Field>)

  /** The plan: provider operations in order of first use, and the key of the one that serves each sourced field,
      fields being named by their unique path. */
  datatype PlanView = PlanView(fetches: seq<FetchView>, sources: map<seq<string>, string>)

  const EMPTY_PLAN: PlanView := PlanView([], map[])

  /** One consumer field read directly from a provider, with the provider paths it needs. */
  datatype Entry = Entry(field: Field, args: seq<ProviderArgument>, paths: seq<string>)

  predicate IsIntrospection(f: Field) {
    "__" <= f.name && !f.IsTypename()
  }

  /** The paths requested for `fields` inside a provider list declared at `declared` and requested at `requested`. */
  function ScopedPaths(fields: seq<Field>, declared: string, requested: string): Result<seq<string>, PlanError>
    decreases fields, 0
  {
    if fields == [] then Ok([])
    else
      var first :- ScopedPath(fields[0], declared, requested);
      var rest :- ScopedPaths(fields[1..], declared, requested);
      Ok(first + rest)
  }

  function ScopedPath(f: Field, declared: string, requested: string): Result<seq<string>, PlanError>
    decreases f, 1
  {
    if f.IsTypename() then Ok([])
    else if IsIntrospection(f) then Err(IntrospectionField(f.name))
    else if f.IsSourced() then
      var path := requested + "." + Paths.RelativePath(f.source.value.providerField, declared);
      if f.IsObjectList() then ScopedPaths(f.selections, f.source.value.providerField, path) else Ok([path])
    else if f.IsList() && f.selections != [] then Err(ListWithoutSource(f.schemaPath))
    else ScopedPaths(f.selections, declared, requested)
  }

  /** The fields read directly from a provider outside any list, in query order. */
  function Entries(bindings: seq<Binding>, fields: seq<Field>): Result<seq<Entry>, PlanError>
    decreases fields, 0
  {
    if fields == [] then Ok([])
    else
      var first :- EntriesOf(bindings, fields[0]);
      var rest :- Entries(bindings, fields[1..]);
      Ok(first + rest)
  }

  function EntriesOf(bindings: seq<Binding>, f: Field): Result<seq<Entry>, PlanError>
    decreases f, 1
  {
    if f.IsTypename() then Ok([])
    else if IsIntrospection(f) then Err(IntrospectionField(f.name))
    else if f.IsSourced() then
      var args :- ArgumentsFor(bindings, f);
      var provider := f.source.value.providerField;
      if f.IsObjectList() then
        var paths :- ScopedPaths(f.selections, provider, provider);
        Ok([Entry(f, args, paths)])
      else Ok([Entry(f, args, [provider])])
    else if f.IsList() && f.selections != [] then Err(ListWithoutSource(f.schemaPath))
    else Entries(bindings, f.selections)
  }

  function AddOnce(fields: seq<string>, path: string): seq<string> {
    if path in fields then fields else fields + [path]
  }

  function AddAll(fields: seq<string>, paths: seq<string>): seq<string>
    decreases |paths|
  {
    if paths == [] then fields else AddAll(AddOnce(fields, paths[0]), paths[1..])
  }

  /** The position of the provider operation with `key`, or the number of them. */
  function IndexOf(fetches: seq<FetchView>, key: string): (k: nat)
    ensures k <= |fetches|
    ensures k < |fetches| ==> fetches[k].key == key
  {
    if fetches == [] then 0 else if fetches[0].key == key then 0 else 1 + IndexOf(fetches[1..], key)
  }

  function EntryKey(marshal: Json -> string, e: Entry): string
    requires e.field.source.Some?
  {
    Key(marshal, e.field.source.value.schemaId, e.args)
  }

  /** The provider operations after one for `key` has been looked up and, if missing, created. */
  function Ensured(fetches: seq<FetchView>, schemaId: string, key: string, args: seq<ProviderArgument>): seq<FetchView>
  {
    if IndexOf(fetches, key) < |fetches| then fetches else fetches + [FetchView(schemaId, key, args, [], [])]
  }

  /** The plan after one more field has been assigned to its provider operation. */
  function Assign(marshal: Json -> string, plan: PlanView, e: Entry): PlanView
    requires e.field.source.Some?
  {
    var key := EntryKey(marshal, e);
    var fetches := Ensured(plan.fetches, e.field.source.value.schemaId, key, e.args);
    var k := IndexOf(plan.fetches, key);
    var f := fetches[k];
    PlanView(
      fetches[k := f.(consumers := f.consumers + [e.field], fields := AddAll(f.fields, e.paths))],
      plan.sources[e.field.path := key])
  }

  function AssignAll(marshal: Json -> string, plan: PlanView, entries: seq<Entry>): PlanView
    requires forall e | e in entries :: e.field.source.Some?
    decreases |entries|
  {
    if entries == [] then plan else AssignAll(marshal, Assign(marshal, plan, entries[0]), entries[1..])
  }

  lemma {:induction false} EntriesSourced(bindings: seq<Binding>, fields: seq<Field>)
    requires Entries(bindings, fields).Ok?
    ensures forall e | e in Entries(bindings, fields).value :: e.field.IsSourced() && e.field in Walk(fields)
    decreases fields, 0
  {
    if fields != [] {
      EntriesOfSourced(bindings, fields[0]);
      EntriesSourced(bindings, fields[1..]);
    }
  }

  lemma {:induction false} EntriesOfSourced(bindings: seq<Binding>, f: Field)
    requires EntriesOf(bindings, f).Ok?
    ensures forall e | e in EntriesOf(bindings, f).value ::
              e.field.IsSourced() && (e.field == f || e.field in Walk(f.selections))
    decreases f, 1
  {
    if !f.IsTypename() && !f.IsSourced() {
      EntriesSourced(bindings, f.selections);
    }
  }

  /** The plan for `fields`. */
  function PlanFor(marshal: Json -> string, bindings: seq<Binding>, fields: seq<Field>): Result<PlanView, PlanError> {
    var entries :- Entries(bindings, fields);
    EntriesSourced(bindings, fields);
    Ok(AssignAll(marshal, EMPTY_PLAN, entries))
  }

  // What the plan guarantees

  /** The entry is served: its field leads to a provider operation with its schema and arguments that requests all its
      paths and lists it as a consumer. */
  predicate Serves(plan: PlanView, e: Entry) {
    && e.field.source.Some?
    && e.field.path in plan.sources
    && var k := IndexOf(plan.fetches, plan.sources[e.field.path]);
       && k < |plan.fetches|
       && plan.fetches[k].schemaId == e.field.source.value.schemaId
       && plan.fetches[k].args == e.args
       && (forall p | p in e.paths :: p in plan.fetches[k].fields)
       && e.field in plan.fetches[k].consumers
  }

  /** The operation that serves an entry. */
  function ServedBy(plan: PlanView, e: Entry): FetchView
    requires Serves(plan, e)
  {
    plan.fetches[IndexOf(plan.fetches, plan.sources[e.field.path])]
  }

  /** Keys are distinct and say what the operation is for. */
  ghost predicate Keyed(marshal: Json -> string, plan: PlanView) {
    && (forall i, j | 0 <= i < j < |plan.fetches| :: plan.fetches[i].key != plan.fetches[j].key)
    && (forall f | f in plan.fetches :: Clean(f.schemaId, f.args) && f.key == Key(marshal, f.schemaId, f.args))
  }

  predicate CleanEntry(e: Entry) {
    e.field.source.Some? && Clean(e.field.source.value.schemaId, e.args)
  }

  lemma {:induction false} AddAllKeeps(fields: seq<string>, paths: seq<string>)
    ensures forall p :: p in AddAll(fields, paths) <==> p in fields || p in paths
    ensures (forall i, j | 0 <= i < j < |fields| :: fields[i] != fields[j]) ==>
            forall i, j | 0 <= i < j < |AddAll(fields, paths)| :: AddAll(fields, paths)[i] != AddAll(fields, paths)[j]
    decreases |paths|
  {
    if paths != [] {
      AddAllKeeps(AddOnce(fields, paths[0]), paths[1..]);
      assert paths == [paths[0]] + paths[1..];
    }
  }

  /** Assigning a field serves it, and keys keep saying what their operations are for. */
  lemma AssignServes(marshal: Json -> string, plan: PlanView, e: Entry)
    requires Faithful(marshal) && Keyed(marshal, plan) && CleanEntry(e)
    ensures Keyed(marshal, Assign(marshal, plan, e))
    ensures Serves(Assign(marshal, plan, e), e)
  {
    var key, next := EntryKey(marshal, e), Assign(marshal, plan, e);
    var k := IndexOf(plan.fetches, key);
    AssignKeyed(marshal, plan, e);
    AssignKeys(marshal, plan, e);
    BeforeIndex(plan.fetches, key);
    if k < |plan.fetches| {
      var f := plan.fetches[k];
      assert f in plan.fetches;
      KeyCanonical(marshal, f.schemaId, f.args, e.field.source.value.schemaId, e.args);
      AddAllKeeps(f.fields, e.paths);
    } else {
      AddAllKeeps([], e.paths);
    }
    FirstKey(next.fetches, key, k);
  }

  lemma AssignKeyed(marshal: Json -> string, plan: PlanView, e: Entry)
    requires Keyed(marshal, plan) && CleanEntry(e)
    ensures Keyed(marshal, Assign(marshal, plan, e))
  {
    var next := Assign(marshal, plan, e);
    AssignKeys(marshal, plan, e);
    BeforeIndex(plan.fetches, EntryKey(marshal, e));
    forall f | f in next.fetches ensures Clean(f.schemaId, f.args) && f.key == Key(marshal, f.schemaId, f.args) {
      var i :| 0 <= i < |next.fetches| && next.fetches[i] == f;
      if i < |plan.fetches| {
        assert plan.fetches[i] in plan.fetches;
      }
    }
  }

  lemma {:induction false} FirstKey(fetches: seq<FetchView>, key: string, k: nat)
    requires k < |fetches| && fetches[k].key == key
    requires forall i | 0 <= i < k :: fetches[i].key != key
    ensures IndexOf(fetches, key) == k
  {
    if k > 0 {
      FirstKey(fetches[1..], key, k - 1);
    }
  }

  lemma {:induction false} BeforeIndex(fetches: seq<FetchView>, key: string)
    ensures forall i | 0 <= i < IndexOf(fetches, key) :: fetches[i].key != key
  {
    if fetches != [] && fetches[0].key != key {
      BeforeIndex(fetches[1..], key);
      assert forall i | 1 <= i < |fetches| :: fetches[i] == fetches[1..][i - 1];
    }
  }

  /** Operations are found by their keys alone. */
  lemma {:induction false} SameKeys(a: seq<FetchView>, b: seq<FetchView>, key: string)
    requires |a| <= |b| && forall i | 0 <= i < |a| :: a[i].key == b[i].key
    ensures IndexOf(a, key) < |a| ==> IndexOf(b, key) == IndexOf(a, key)
    ensures |a| == |b| ==> IndexOf(b, key) == IndexOf(a, key)
  {
    if a != [] && a[0].key != key {
      SameKeys(a[1..], b[1..], key);
    }
  }

  lemma AssignKeys(marshal: Json -> string, plan: PlanView, e: Entry)
    requires e.field.source.Some?
    ensures var next, n := Assign(marshal, plan, e), |plan.fetches|;
            && n <= |next.fetches| <= n + 1
            && (forall i | 0 <= i < n ::
                  && next.fetches[i].key == plan.fetches[i].key
                  && next.fetches[i].schemaId == plan.fetches[i].schemaId
                  && next.fetches[i].args == plan.fetches[i].args
                  && (forall p | p in plan.fetches[i].fields :: p in next.fetches[i].fields)
                  && (forall f | f in plan.fetches[i].consumers :: f in next.fetches[i].consumers))
            && (|next.fetches| == n + 1 ==>
                  next.fetches[n].key == EntryKey(marshal, e) && IndexOf(plan.fetches, EntryKey(marshal, e)) == n)
  {
    var key := EntryKey(marshal, e);
    var k := IndexOf(plan.fetches, key);
    if k < |plan.fetches| {
      AddAllKeeps(plan.fetches[k].fields, e.paths);
    }
  }

  lemma AssignKeepsServed(marshal: Json -> string, plan: PlanView, e: Entry, other: Entry)
    requires e.field.source.Some?
    requires Serves(plan, other) && other.field.path != e.field.path
    ensures Serves(Assign(marshal, plan, e), other)
  {
    AssignKeys(marshal, plan, e);
    var key := plan.sources[other.field.path];
    var k, next := IndexOf(plan.fetches, key), Assign(marshal, plan, e);
    SameKeys(plan.fetches, next.fetches, key);
    assert forall p | p in other.paths :: p in plan.fetches[k].fields;
  }

  lemma {:induction false} AssignAllServes(marshal: Json -> string, plan: PlanView, entries: seq<Entry>,
                                           served: set<Entry>)
    requires Faithful(marshal) && Keyed(marshal, plan)
    requires forall e | e in entries :: e.field.source.Some? && CleanEntry(e)
    requires forall e | e in served :: Serves(plan, e)
    requires forall i, j | 0 <= i < j < |entries| :: entries[i].field.path != entries[j].field.path
    requires forall e, f | e in served && f in entries :: e.field.path != f.field.path
    ensures Keyed(marshal, AssignAll(marshal, plan, entries))
    ensures forall e | e in served || e in entries :: Serves(AssignAll(marshal, plan, entries), e)
    decreases |entries|
  {
    if entries != [] {
      var first, rest := entries[0], entries[1..];
      var next := Assign(marshal, plan, first);
      assert first in entries;
      AssignServes(marshal, plan, first);
      forall e | e in served ensures Serves(next, e) {
        AssignKeepsServed(marshal, plan, first, e);
      }
      assert forall e | e in rest :: e in entries;
      AssignAllServes(marshal, next, rest, served + {first});
      assert entries == [first] + rest;
    }
  }

  predicate CleanEntries(bindings: seq<Binding>, fields: seq<Field>) {
    Entries(bindings, fields).Ok? ==> forall e | e in Entries(bindings, fields).value :: CleanEntry(e)
  }

  /** Every sourced field is served by the plan: each lookup merging makes is defined, and leads to an operation for the
      field's own schema and arguments that requests what the field needs. */
  lemma PlanServesEveryEntry(marshal: Json -> string, bindings: seq<Binding>, fields: seq<Field>)
    requires Faithful(marshal) && CleanEntries(bindings, fields) && WellShaped(fields, [])
    requires PlanFor(marshal, bindings, fields).Ok?
    ensures Keyed(marshal, PlanFor(marshal, bindings, fields).value)
    ensures forall e | e in Entries(bindings, fields).value :: Serves(PlanFor(marshal, bindings, fields).value, e)
  {
    var entries := Entries(bindings, fields).value;
    PathsUnique(fields, []);
    EntriesOrdered(bindings, fields);
    EntriesSourced(bindings, fields);
    forall i, j | 0 <= i < j < |entries| ensures entries[i].field.path != entries[j].field.path {
      var at := EntriesAt(bindings, fields);
      assert at[i] < at[j];
    }
    AssignAllServes(marshal, EMPTY_PLAN, entries, {});
  }

  /** Fields share a provider operation exactly when they read the same schema with the same arguments. */
  lemma OperationsAreShared(marshal: Json -> string, bindings: seq<Binding>, fields: seq<Field>, a: Entry, b: Entry)
    requires Faithful(marshal) && CleanEntries(bindings, fields) && WellShaped(fields, [])
    requires PlanFor(marshal, bindings, fields).Ok?
    requires a in Entries(bindings, fields).value && b in Entries(bindings, fields).value
    ensures a.field.source.Some? && b.field.source.Some?
    ensures var plan := PlanFor(marshal, bindings, fields).value;
            && a.field.path in plan.sources && b.field.path in plan.sources
            && (plan.sources[a.field.path] == plan.sources[b.field.path] <==>
                a.field.source.value.schemaId == b.field.source.value.schemaId && a.args == b.args)
  {
    var plan := PlanFor(marshal, bindings, fields).value;
    PlanServesEveryEntry(marshal, bindings, fields);
    assert Serves(plan, a) && Serves(plan, b);
    var i, j := IndexOf(plan.fetches, plan.sources[a.field.path]), IndexOf(plan.fetches, plan.sources[b.field.path]);
    assert plan.fetches[i] in plan.fetches && plan.fetches[j] in plan.fetches;
  }

  /** Where in the walk of the tree each entry's field stands. */
  ghost function EntriesAt(bindings: seq<Binding>, fields: seq<Field>): seq<nat>
    requires Entries(bindings, fields).Ok?
    decreases fields, 0
  {
    if fields == [] then []
    else
      EntriesOfAt(bindings, fields[0]) +
      Shift(EntriesAt(bindings, fields[1..]), 1 + |Walk(fields[0].selections)|)
  }

  ghost function EntriesOfAt(bindings: seq<Binding>, f: Field): seq<nat>
    requires EntriesOf(bindings, f).Ok?
    decreases f, 1
  {
    if f.IsTypename() then []
    else if f.IsSourced() then [0]
    else Shift(EntriesAt(bindings, f.selections), 1)
  }

  ghost function Shift(s: seq<nat>, d: nat): seq<nat> {
    seq(|s|, i requires 0 <= i < |s| => s[i] + d)
  }

  ghost predicate Located(entries: seq<Entry>, at: seq<nat>, walk: seq<Field>) {
    && |at| == |entries|
    && (forall i | 0 <= i < |at| :: at[i] < |walk| && walk[at[i]] == entries[i].field)
    && (forall i, j | 0 <= i < j < |at| :: at[i] < at[j])
  }

  lemma LocatedConcat(a: seq<Entry>, s: seq<nat>, v: seq<Field>, b: seq<Entry>, t: seq<nat>, w: seq<Field>)
    requires Located(a, s, v) && Located(b, t, w)
    ensures Located(a + b, s + Shift(t, |v|), v + w)
  {
  }

  lemma {:induction false} EntriesOrdered(bindings: seq<Binding>, fields: seq<Field>)
    requires Entries(bindings, fields).Ok?
    ensures Located(Entries(bindings, fields).value, EntriesAt(bindings, fields), Walk(fields))
    decreases fields, 0
  {
    if fields != [] {
      EntriesOfOrdered(bindings, fields[0]);
      EntriesOrdered(bindings, fields[1..]);
      LocatedConcat(EntriesOf(bindings, fields[0]).value, EntriesOfAt(bindings, fields[0]),
                    [fields[0]] + Walk(fields[0].selections),
                    Entries(bindings, fields[1..]).value, EntriesAt(bindings, fields[1..]), Walk(fields[1..]));
    }
  }

  lemma {:induction false} EntriesOfOrdered(bindings: seq<Binding>, f: Field)
    requires EntriesOf(bindings, f).Ok?
    ensures Located(EntriesOf(bindings, f).value, EntriesOfAt(bindings, f), [f] + Walk(f.selections))
    decreases f, 1
  {
    if !f.IsTypename() && !f.IsSourced() {
      EntriesOrdered(bindings, f.selections);
      LocatedBelow(f, Entries(bindings, f.selections).value, EntriesAt(bindings, f.selections), Walk(f.selections));
    }
  }

  lemma LocatedBelow(f: Field, entries: seq<Entry>, at: seq<nat>, walk: seq<Field>)
    requires Located(entries, at, walk)
    ensures Located(entries, Shift(at, 1), [f] + walk)
  {
  }
}
