/** What it takes, in terms of the paths an operation is asked for, that its answers can be read where merging reads. */
module Readability {
  import opened Wrappers
  import Json
  import opened Paths
  import opened Fields
  import opened Arguments
  import opened Selection
  import opened Printing
  import opened Plan
  import opened Federation
  import opened Requests

  /** Every object list below a provider list at `at` is covered: something is asked for at or below it, or the whole
      value of a position above it. */
  predicate ListsCovered(asked: seq<string>, fields: seq<Field>, declared: string, at: string)
    decreases fields
  {
    forall f | f in fields && !f.IsTypename() ::
      if f.IsSourced() then
        var inner := at + "." + RelativePath(f.source.value.providerField, declared);
        f.IsObjectList() ==>
          Covered(asked, Split(inner)) && ListsCovered(asked, f.selections, f.source.value.providerField, inner)
      else ListsCovered(asked, f.selections, declared, at)
  }

  /** So is every object list of a directly read field. */
  predicate FieldCovered(asked: seq<string>, f: Field) {
    f.IsObjectList() ==>
      var provider := f.source.value.providerField;
      Covered(asked, Split(provider)) && ListsCovered(asked, f.selections, provider, provider)
  }

  predicate AllUndivided(asked: seq<string>, paths: seq<string>) {
    forall p | p in paths :: Undivided(asked, Split(p))
  }

  // Reaching a path in two legs

  lemma {:induction false} ReachesConcat(node: Node, p: seq<string>, q: seq<string>)
    ensures Reaches(node, p + q) <==> Reaches(node, p) && Reaches(Reached(node, p), q)
    ensures Reaches(node, p + q) ==> Reached(node, p + q) == Reached(Reached(node, p), q)
    decreases |p|
  {
    if p == [] {
      assert p + q == q;
    } else if node.children != [] {
      assert (p + q)[1..] == p[1..] + q;
      if node.Index(p[0]) < |node.children| {
        ReachesConcat(node.children[node.Index(p[0])], p[1..], q);
      }
    }
  }

  lemma RootReachesConcat(root: Node, p: seq<string>, q: seq<string>)
    requires RootReaches(root, p)
    ensures RootReaches(root, p + q) <==> Reaches(RootReached(root, p), q)
    ensures RootReaches(root, p + q) ==> RootReached(root, p + q) == Reached(RootReached(root, p), q)
  {
    assert (p + q)[1..] == p[1..] + q;
    ReachesConcat(root.children[root.Index(p[0])], p[1..], q);
  }

  // Readable means covered and undivided

  /** Inside the list at `at`, fields can be read exactly when their lists are covered and nothing is asked for below
      their leaves. */
  lemma {:induction false} ScopedReadable(root: Node, asked: seq<string>, fields: seq<Field>, declared: string,
                                          at: string)
    requires SelectsExactly(root, asked) && RootReaches(root, Split(at))
    requires ScopedPaths(fields, declared, at).Ok?
    requires forall p | p in ScopedPaths(fields, declared, at).value :: p in asked
    ensures Readable(RootReached(root, Split(at)), fields, declared) <==>
            ListsCovered(asked, fields, declared, at) && AllUndivided(asked, ScopedPaths(fields, declared, at).value)
    decreases fields, 0
  {
    if fields != [] {
      var node := RootReached(root, Split(at));
      FieldReadable(root, asked, fields[0], declared, at);
      ScopedReadable(root, asked, fields[1..], declared, at);
    }
  }

  lemma {:induction false} FieldReadable(root: Node, asked: seq<string>, f: Field, declared: string, at: string)
    requires SelectsExactly(root, asked) && RootReaches(root, Split(at))
    requires ScopedPath(f, declared, at).Ok? && forall p | p in ScopedPath(f, declared, at).value :: p in asked
    ensures Readable(RootReached(root, Split(at)), [f], declared) <==>
            ListsCovered(asked, [f], declared, at) && AllUndivided(asked, ScopedPath(f, declared, at).value)
    decreases f, 1
  {
    assert f in [f];
    if f.IsTypename() {
    } else if f.IsSourced() {
      SourcedReadable(root, asked, f, declared, at);
    } else {
      ScopedReadable(root, asked, f.selections, declared, at);
    }
  }

  lemma {:induction false} SourcedReadable(root: Node, asked: seq<string>, f: Field, declared: string, at: string)
    requires SelectsExactly(root, asked) && RootReaches(root, Split(at)) && f.IsSourced()
    requires ScopedPath(f, declared, at).Ok? && forall p | p in ScopedPath(f, declared, at).value :: p in asked
    ensures var relative := Split(RelativePath(f.source.value.providerField, declared));
            Reaches(RootReached(root, Split(at)), relative) &&
            ReadableAt(Reached(RootReached(root, Split(at)), relative), f) <==>
            ListsCovered(asked, [f], declared, at) && AllUndivided(asked, ScopedPath(f, declared, at).value)
    decreases f, 0
  {
    var provider := f.source.value.providerField;
    var relative := RelativePath(provider, declared);
    var inner := at + "." + relative;
    assert f in [f];
    SplitDotted(at, relative);
    RootReachesConcat(root, Split(at), Split(relative));
    RootReachesIff(root, asked, Split(inner));
    if !f.IsObjectList() {
      assert inner in asked && Covered(asked, Split(inner));
    } else if RootReaches(root, Split(inner)) {
      ScopedReadable(root, asked, f.selections, provider, inner);
    }
  }

  /** A field is read where its operation leads exactly when the lists in it are covered and nothing is asked for
      below its leaves. */
  lemma EntryReadable(root: Node, asked: seq<string>, e: Entry)
    requires SelectsExactly(root, asked) && EntryOf(e) && forall p | p in e.paths :: p in asked
    ensures ReadableFrom(root, e.field) <==> FieldCovered(asked, e.field) && AllUndivided(asked, e.paths)
  {
    var provider := e.field.source.value.providerField;
    RootReachesIff(root, asked, Split(provider));
    if !e.field.IsObjectList() {
      assert provider in e.paths && Covered(asked, Split(provider));
    } else if RootReaches(root, Split(provider)) {
      ScopedReadable(root, asked, e.field.selections, provider, provider);
    }
  }

  /** The entry is one that planning makes: a leaf, or a list with the paths of its items' fields. */
  predicate EntryOf(e: Entry) {
    && e.field.IsSourced()
    && var provider := e.field.source.value.providerField;
       if e.field.IsObjectList() then ScopedPaths(e.field.selections, provider, provider) == Ok(e.paths)
       else e.paths == [provider]
  }

  lemma {:induction false} EntriesArePlanned(bindings: seq<Binding>, fields: seq<Field>)
    requires Entries(bindings, fields).Ok?
    ensures forall e | e in Entries(bindings, fields).value :: EntryOf(e)
    decreases fields, 0
  {
    if fields != [] {
      EntriesOfPlanned(bindings, fields[0]);
      EntriesArePlanned(bindings, fields[1..]);
    }
  }

  lemma {:induction false} EntriesOfPlanned(bindings: seq<Binding>, f: Field)
    requires EntriesOf(bindings, f).Ok?
    ensures forall e | e in EntriesOf(bindings, f).value :: EntryOf(e)
    decreases f, 1
  {
    if !f.IsTypename() && !f.IsSourced() {
      EntriesArePlanned(bindings, f.selections);
    }
  }

  // A whole plan

  predicate AllReadable(plan: PlanView, entries: seq<Entry>) {
    forall e | e in entries ::
      e.field.IsSourced() && Serves(plan, e) && ReadableFrom(SentTree(ServedBy(plan, e)), e.field)
  }

  /** No operation requests a path below another. */
  predicate RequestsPrefixFree(plan: PlanView) {
    forall f | f in plan.fetches :: PrefixFree(f.fields)
  }

  /** Of every object list, something is requested or an argument is attached to it or below it, or it is part of a
      whole value that is sent. */
  predicate AllCovered(plan: PlanView, entries: seq<Entry>) {
    forall e | e in entries && Serves(plan, e) ::
      FieldCovered(Asked(ServedBy(plan, e).fields, ServedBy(plan, e).args), e.field)
  }

  /** Everything merging reads is where its operation leads exactly when no operation requests a path below another and
      every object list is covered. */
  lemma ReadableIffRequested(marshal: Json.Json -> string, bindings: seq<Binding>, fields: seq<Field>)
    requires Faithful(marshal) && CleanEntries(bindings, fields) && WellShaped(fields, [])
    requires PlanFor(marshal, bindings, fields).Ok?
    ensures var plan, entries := PlanFor(marshal, bindings, fields).value, Entries(bindings, fields).value;
            AllReadable(plan, entries) <==> RequestsPrefixFree(plan) && AllCovered(plan, entries)
  {
    var plan, entries := PlanFor(marshal, bindings, fields).value, Entries(bindings, fields).value;
    PlanServesEveryEntry(marshal, bindings, fields);
    EntriesArePlanned(bindings, fields);
    forall e | e in entries
      ensures var f := ServedBy(plan, e);
              ReadableFrom(SentTree(f), e.field) <==>
              FieldCovered(Asked(f.fields, f.args), e.field) && AllUndivided(f.fields, e.paths)
    {
      var f := ServedBy(plan, e);
      PrintedSelectsExactly(f.fields, f.args);
      EntryReadable(SentTree(f), Asked(f.fields, f.args), e);
      PlannedAbove(marshal, bindings, fields, f);
    }
    if AllReadable(plan, entries) {
      forall f, p | f in plan.fetches && p in f.fields ensures Undivided(f.fields, Split(p)) {
        var e := Requester(marshal, bindings, fields, f, p);
        assert AllUndivided(f.fields, e.paths);
      }
    }
  }

  // A simple sufficient condition

  lemma {:induction false} ReadListsCovered(asked: seq<string>, fields: seq<Field>, declared: string, at: string)
    requires ListsReadSomething(fields) && ScopedPaths(fields, declared, at).Ok?
    requires forall p | p in ScopedPaths(fields, declared, at).value :: p in asked
    ensures ListsCovered(asked, fields, declared, at)
    decreases fields, 0
  {
    if fields != [] {
      assert fields[0] in fields;
      assert forall f | f in fields[1..] :: f in fields;
      ReadListCovered(asked, fields[0], declared, at);
      ReadListsCovered(asked, fields[1..], declared, at);
    }
  }

  lemma {:induction false} ReadListCovered(asked: seq<string>, f: Field, declared: string, at: string)
    requires ListsReadSomething(f.selections) && (f.IsObjectList() ==> ReadsSomething(f.selections))
    requires ScopedPath(f, declared, at).Ok?
    requires forall p | p in ScopedPath(f, declared, at).value :: p in asked
    ensures ListsCovered(asked, [f], declared, at)
    decreases f, 1
  {
    if f.IsTypename() {
    } else if f.IsObjectList() {
      var provider := f.source.value.providerField;
      var inner := at + "." + RelativePath(provider, declared);
      ListCovered(asked, f, provider, inner);
      ReadListsCovered(asked, f.selections, provider, inner);
    } else if !f.IsSourced() {
      ReadListsCovered(asked, f.selections, declared, at);
    }
  }

  lemma ListCovered(asked: seq<string>, f: Field, declared: string, at: string)
    requires ReadsSomething(f.selections) && ScopedPaths(f.selections, declared, at).Ok?
    requires forall p | p in ScopedPaths(f.selections, declared, at).value :: p in asked
    ensures Covered(asked, Split(at))
  {
    ScopedPathsNonempty(f.selections, declared, at);
    ScopedPathsBelow(f.selections, declared, at);
    var p := ScopedPaths(f.selections, declared, at).value[0];
    assert p in asked && Split(at) < Split(p);
  }

  /** Lists with something sourced below them are covered by whatever requests the paths of their entries. */
  lemma EntryReadsCovered(asked: seq<string>, e: Entry)
    requires EntryOf(e) && forall p | p in e.paths :: p in asked
    requires ListsReadSomething([e.field])
    ensures FieldCovered(asked, e.field)
  {
    assert e.field in [e.field];
    if e.field.IsObjectList() {
      var provider := e.field.source.value.providerField;
      ListCovered(asked, e.field, provider, provider);
      ReadListsCovered(asked, e.field.selections, provider, provider);
    }
  }

  lemma {:induction false} EntriesReadSomething(fields: seq<Field>, f: Field)
    requires ListsReadSomething(fields) && f in Walk(fields)
    ensures ListsReadSomething([f])
    decreases fields
  {
    assert fields[0] in fields;
    if f == fields[0] {
    } else if f in Walk(fields[0].selections) {
      EntriesReadSomething(fields[0].selections, f);
    } else {
      assert forall g | g in fields[1..] :: g in fields;
      EntriesReadSomething(fields[1..], f);
    }
  }
}
