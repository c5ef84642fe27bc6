/** What the plan's provider operations request, and what the policy check is asked about. */
module Requests {
  import opened Json
  import opened Paths
  import opened Fields
  import opened Arguments
  import opened Selection
  import opened Plan
  import opened Printing
  import Sequences
  import opened Federation

  /** A provider field of one schema: what the PDP authorizes. */
  datatype RequiredField = RequiredField(schemaId: string, fieldName: string)

  function FieldsOf(f: FetchView): seq<RequiredField> {
    seq(|f.fields|, i requires 0 <= i < |f.fields| => RequiredField(f.schemaId, f.fields[i]))
  }

  function AllFields(fetches: seq<FetchView>): seq<RequiredField> {
    if fetches == [] then [] else AllFields(fetches[..|fetches| - 1]) + FieldsOf(fetches[|fetches| - 1])
  }

  /** The policy check's question: all that any operation requests, without repetition. */
  function RequiredFields(plan: PlanView): seq<RequiredField> {
    Sequences.Dedup(AllFields(plan.fetches))
  }

  /** The policy check covers exactly what the plan requests, without repetition. */
  lemma RequiredIsRequested(plan: PlanView, schemaId: string, path: string)
    ensures RequiredField(schemaId, path) in RequiredFields(plan) <==>
            exists f :: f in plan.fetches && f.schemaId == schemaId && path in f.fields
    ensures forall i, j | 0 <= i < j < |RequiredFields(plan)| :: RequiredFields(plan)[i] != RequiredFields(plan)[j]
  {
    AllFieldsMember(plan.fetches, schemaId, path);
    Sequences.DedupMembers(AllFields(plan.fetches));
  }

  lemma {:induction false} AllFieldsMember(fetches: seq<FetchView>, schemaId: string, path: string)
    ensures RequiredField(schemaId, path) in AllFields(fetches) <==>
            exists f :: f in fetches && f.schemaId == schemaId && path in f.fields
  {
    if fetches != [] {
      var front, last := fetches[..|fetches| - 1], fetches[|fetches| - 1];
      AllFieldsMember(front, schemaId, path);
      assert fetches == front + [last];
      if schemaId == last.schemaId && path in last.fields {
        var i :| 0 <= i < |last.fields| && last.fields[i] == path;
        assert FieldsOf(last)[i] == RequiredField(schemaId, path);
      }
      if RequiredField(schemaId, path) in FieldsOf(last) {
        assert last in fetches;
      }
      if f :| f in front && f.schemaId == schemaId && path in f.fields {
        assert f in fetches;
      }
    }
  }

  // What each operation requests

  /** The operation requests, once each, the paths of the fields it serves. If each of them reads something, its
      arguments lead to requested paths. */
  ghost predicate RequestsItsFields(marshal: Json -> string, f: FetchView, entries: seq<Entry>) {
    && (forall i, j | 0 <= i < j < |f.fields| :: f.fields[i] != f.fields[j])
    && (forall p | p in f.fields :: exists e | e in entries ::
          e.field.source.Some? && EntryKey(marshal, e) == f.key && p in e.paths)
    && (AllUseful(entries) ==> f.fields != [] && Lead(f.args, f.fields))
  }

  predicate AllUseful(entries: seq<Entry>) {
    forall e | e in entries :: Useful(e)
  }

  predicate Useful(e: Entry) {
    e.field.source.Some? && e.paths != [] && Lead(e.args, e.paths)
  }

  lemma {:induction false} AssignRequests(marshal: Json -> string, plan: PlanView, done: seq<Entry>, todo: seq<Entry>)
    requires forall e | e in todo :: e.field.source.Some?
    requires forall f | f in plan.fetches :: RequestsItsFields(marshal, f, done)
    ensures forall f | f in AssignAll(marshal, plan, todo).fetches :: RequestsItsFields(marshal, f, done + todo)
    decreases |todo|
  {
    if todo == [] {
      assert done + todo == done;
    } else {
      var e, rest := todo[0], todo[1..];
      var next := Assign(marshal, plan, e);
      assert e in todo;
      forall f | f in next.fetches ensures RequestsItsFields(marshal, f, done + [e]) {
        var i :| 0 <= i < |next.fetches| && next.fetches[i] == f;
        AssignRequestsAt(marshal, plan, done, e, i);
      }
      assert forall x | x in rest :: x in todo;
      AssignRequests(marshal, next, done + [e], rest);
      assert done + [e] + rest == done + todo;
    }
  }

  lemma AssignRequestsAt(marshal: Json -> string, plan: PlanView, done: seq<Entry>, e: Entry, i: nat)
    requires e.field.source.Some? && i < |Assign(marshal, plan, e).fetches|
    requires forall f | f in plan.fetches :: RequestsItsFields(marshal, f, done)
    ensures RequestsItsFields(marshal, Assign(marshal, plan, e).fetches[i], done + [e])
  {
    var key, f := EntryKey(marshal, e), Assign(marshal, plan, e).fetches[i];
    var k := IndexOf(plan.fetches, key);
    assert e in done + [e];
    assert AllUseful(done + [e]) ==> AllUseful(done) && Useful(e);
    if i < |plan.fetches| {
      var g := plan.fetches[i];
      assert g in plan.fetches;
      AddAllKeeps(g.fields, e.paths);
      forall p | p in f.fields ensures exists x | x in done + [e] ::
          x.field.source.Some? && EntryKey(marshal, x) == f.key && p in x.paths
      {
        if p in g.fields {
          var x :| x in done && x.field.source.Some? && EntryKey(marshal, x) == g.key && p in x.paths;
          assert x in done + [e];
        } else {
          assert i == k && e in done + [e];
        }
      }
      assert forall p | p in g.fields :: p in f.fields;
      if AllUseful(done + [e]) {
        assert g.fields[0] in f.fields;
      }
    } else {
      AddAllKeeps([], e.paths);
      assert forall p | p in e.paths :: p in f.fields;
      if AllUseful(done + [e]) {
        assert e.paths[0] in f.fields;
      }
    }
  }

  // Entries are useful when every object list has something sourced below it

  /** The arguments are attached on the way to every one of the paths. */
  predicate Above(args: seq<ProviderArgument>, paths: seq<string>) {
    forall a, p | a in args && p in paths :: Split(a.path) <= Split(p)
  }

  lemma ArgumentsAbove(bindings: seq<Binding>, f: Field, paths: seq<string>)
    requires f.source.Some? && ArgumentsFor(bindings, f).Ok?
    requires forall p | p in paths :: Split(f.source.value.providerField) <= Split(p)
    ensures Above(ArgumentsFor(bindings, f).value, paths)
  {
    forall a, p | a in ArgumentsFor(bindings, f).value && p in paths ensures Split(a.path) <= Split(p) {
      ArgumentsAreCanonical(bindings, f, a);
      assert FirstBinding(bindings, f, {}, a);
      assert exists i :: 0 <= i < |bindings| && Applies(bindings[i], f) && Target(bindings[i]) == (a.path, a.name);
      PathPrefixMeansPrefix(f.source.value.providerField, a.path);
    }
  }

  lemma {:induction false} EntriesAbove(bindings: seq<Binding>, fields: seq<Field>)
    requires Entries(bindings, fields).Ok?
    ensures forall e | e in Entries(bindings, fields).value :: e.field.source.Some? && Above(e.args, e.paths)
    decreases fields, 0
  {
    if fields != [] {
      EntriesOfAbove(bindings, fields[0]);
      EntriesAbove(bindings, fields[1..]);
    }
  }

  lemma {:induction false} EntriesOfAbove(bindings: seq<Binding>, f: Field)
    requires EntriesOf(bindings, f).Ok?
    ensures forall e | e in EntriesOf(bindings, f).value :: e.field.source.Some? && Above(e.args, e.paths)
    decreases f, 1
  {
    if f.IsSourced() {
      var provider := f.source.value.providerField;
      if f.IsObjectList() {
        ScopedPathsBelow(f.selections, provider, provider);
      }
      ArgumentsAbove(bindings, f, EntriesOf(bindings, f).value[0].paths);
    } else if !f.IsTypename() {
      EntriesAbove(bindings, f.selections);
    }
  }

  lemma {:induction false} EntriesNonempty(bindings: seq<Binding>, fields: seq<Field>)
    requires Entries(bindings, fields).Ok? && ListsReadSomething(fields)
    ensures forall e | e in Entries(bindings, fields).value :: e.paths != []
    decreases fields, 0
  {
    if fields != [] {
      assert fields[0] in fields;
      assert forall f | f in fields[1..] :: f in fields;
      EntriesOfNonempty(bindings, fields[0]);
      EntriesNonempty(bindings, fields[1..]);
    }
  }

  lemma {:induction false} EntriesOfNonempty(bindings: seq<Binding>, f: Field)
    requires EntriesOf(bindings, f).Ok? && ListsReadSomething(f.selections)
    requires f.IsObjectList() ==> ReadsSomething(f.selections)
    ensures forall e | e in EntriesOf(bindings, f).value :: e.paths != []
    decreases f, 1
  {
    if f.IsObjectList() {
      ScopedPathsNonempty(f.selections, f.source.value.providerField, f.source.value.providerField);
    } else if !f.IsTypename() && !f.IsSourced() {
      EntriesNonempty(bindings, f.selections);
    }
  }

  /** Every planned operation requests exactly the paths of the fields it serves, once each; when every object list has
      something sourced below it, at least one, and its arguments are attached on the way to them. */
  lemma PlanRequests(marshal: Json -> string, bindings: seq<Binding>, fields: seq<Field>, f: FetchView)
    requires PlanFor(marshal, bindings, fields).Ok?
    requires f in PlanFor(marshal, bindings, fields).value.fetches
    ensures RequestsItsFields(marshal, f, Entries(bindings, fields).value)
    ensures ListsReadSomething(fields) ==> f.fields != [] && Lead(f.args, f.fields)
  {
    var entries := Entries(bindings, fields).value;
    EntriesSourced(bindings, fields);
    AssignRequests(marshal, EMPTY_PLAN, [], entries);
    assert [] + entries == entries;
    if ListsReadSomething(fields) {
      EntriesAbove(bindings, fields);
      EntriesNonempty(bindings, fields);
      forall e | e in entries ensures Useful(e) {
        assert e.paths[0] in e.paths;
      }
    }
  }

  /** A planned operation attaches its arguments on the way to everything it requests, so that they lead to requested
      paths unless it requests nothing at all. */
  lemma PlannedAbove(marshal: Json -> string, bindings: seq<Binding>, fields: seq<Field>, f: FetchView)
    requires Faithful(marshal) && CleanEntries(bindings, fields) && WellShaped(fields, [])
    requires PlanFor(marshal, bindings, fields).Ok?
    requires f in PlanFor(marshal, bindings, fields).value.fetches
    ensures Above(f.args, f.fields)
    ensures Lead(f.args, f.fields) <==> f.fields != [] || f.args == []
  {
    PlanRequests(marshal, bindings, fields, f);
    forall a, p | a in f.args && p in f.fields ensures Split(a.path) <= Split(p) {
      var e := Requester(marshal, bindings, fields, f, p);
      EntriesAbove(bindings, fields);
    }
    if f.fields != [] {
      assert f.fields[0] in f.fields;
    } else if f.args != [] {
      assert f.args[0] in f.args;
    }
  }

  /** A field that needs the path, and is served by the operation. */
  lemma Requester(marshal: Json -> string, bindings: seq<Binding>, fields: seq<Field>, f: FetchView, p: string)
    returns (e: Entry)
    requires Faithful(marshal) && CleanEntries(bindings, fields) && WellShaped(fields, [])
    requires PlanFor(marshal, bindings, fields).Ok?
    requires f in PlanFor(marshal, bindings, fields).value.fetches && p in f.fields
    ensures e in Entries(bindings, fields).value && p in e.paths
    ensures var plan := PlanFor(marshal, bindings, fields).value; Serves(plan, e) && ServedBy(plan, e) == f
  {
    var plan := PlanFor(marshal, bindings, fields).value;
    PlanRequests(marshal, bindings, fields, f);
    PlanServesEveryEntry(marshal, bindings, fields);
    e :| e in Entries(bindings, fields).value && e.field.source.Some? && EntryKey(marshal, e) == f.key && p in e.paths;
    var g := ServedBy(plan, e);
    assert g in plan.fetches && g.key == f.key;
  }

  /** What is sent to a provider is what the policy check was asked about, when the operation's arguments lead to
      requested paths, and only then is every leaf of the printed operation a path it requested. */
  lemma PrintedLeavesAreChecked(marshal: Json -> string, bindings: seq<Binding>, fields: seq<Field>, f: FetchView)
    requires PlanFor(marshal, bindings, fields).Ok?
    requires f in PlanFor(marshal, bindings, fields).value.fetches
    ensures (forall q | PrintedLeaf(f.fields, f.args, q) :: IsRequested(f.fields, q)) <==> Lead(f.args, f.fields)
    ensures Lead(f.args, f.fields) ==> forall q | PrintedLeaf(f.fields, f.args, q) ::
              LeafRequired(RequiredFields(PlanFor(marshal, bindings, fields).value), f.schemaId, q)
  {
    LeavesRequestedIffLead(f.fields, f.args);
    if Lead(f.args, f.fields) {
      var plan := PlanFor(marshal, bindings, fields).value;
      forall q | PrintedLeaf(f.fields, f.args, q) ensures LeafRequired(RequiredFields(plan), f.schemaId, q) {
        var path :| path in f.fields && Split(path) == q;
        RequiredIsRequested(plan, f.schemaId, path);
      }
    }
  }

  /** The field at `q` of the schema is among the required ones. */
  predicate LeafRequired(required: seq<RequiredField>, schemaId: string, q: seq<string>) {
    exists r | r in required :: r.schemaId == schemaId && Split(r.fieldName) == q
  }
}
