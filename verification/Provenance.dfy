/** Where every value of a merged response comes from. */
module Provenance {
  import opened Wrappers
  import opened Json
  import opened Paths
  import opened Fields
  import Arguments
  import opened Plan
  import opened Merge
  import opened Nulls
  import Readability
  import Federation
  import Meaning

  /** The value at `indices` in nested lists. */
  function Item(value: Json, indices: seq<nat>): Option<Json> {
    if indices == [] then Some(value)
    else if value.List? && indices[0] < |value.items| then Item(value.items[indices[0]], indices[1..])
    else None
  }

  /** A leaf is what the answer holds, for the items it lies in, at a requested path; so is every leaf in a list's
      items. */
  predicate ValueHeld(requests: seq<string>, f: Field, v: Json, answer: Json, path: string, indices: seq<nat>)
    requires f.IsSourced()
    decreases f
  {
    if !f.IsObjectList() then path in requests && Item(ValueAt(answer, Split(path)), indices) == Some(v)
    else v.List? ==>
      forall i | 0 <= i < |v.items| && v.items[i].Object? ::
        MembersHeld(requests, f.selections, v.items[i].members, answer, f.source.value.providerField, path,
                    indices + [i])
  }

  /** So is every leaf of an item of the list declared at `declared` and requested at `at`. */
  predicate MembersHeld(requests: seq<string>, fields: seq<Field>, members: map<string, Json>, answer: Json,
                        declared: string, at: string, indices: seq<nat>)
    decreases fields
  {
    forall f | f in fields && f.responseKey in members && !f.IsTypename() ::
      var v := members[f.responseKey];
      if f.IsSourced() then
        ValueHeld(requests, f, v, answer, at + "." + RelativePath(f.source.value.providerField, declared), indices)
      else if f.selections == [] then v == Null
      else v.Object? ==> MembersHeld(requests, f.selections, v.members, answer, declared, at, indices)
  }

  /** Every leaf of the response is what the operation that serves it was answered at a path it requested, or null. */
  predicate AllHeld(env: Env, fields: seq<Field>, members: map<string, Json>)
    decreases fields
  {
    forall f | f in fields && f.responseKey in members && !f.IsTypename() ::
      var v := members[f.responseKey];
      if f.IsSourced() then
        match ResultFor(env, f)
        case Failed => v == Null
        case Answered(data, _) =>
          ValueHeld(RequestsFor(env.plan, f), f, v, Object(data), f.source.value.providerField, [])
      else if f.selections == [] then v == Null
      else v.Object? ==> AllHeld(env, f.selections, v.members)
  }

  function RequestsFor(plan: PlanView, f: Field): seq<string> {
    if f.path in plan.sources && IndexOf(plan.fetches, plan.sources[f.path]) < |plan.fetches|
    then plan.fetches[IndexOf(plan.fetches, plan.sources[f.path])].fields
    else []
  }

  /** Nothing reaches the consumer as a leaf that was not requested, in any plan and whatever providers answer: every
      leaf of the response is the value its operation was answered at a requested path, and so a path the policy check
      saw. */
  lemma OnlyRequestedIsShown(marshal: Json -> string, bindings: seq<Arguments.Binding>, fields: seq<Field>,
                             results: map<string, FetchResult>)
    requires Meaning.WellPlanned(marshal, bindings, fields)
    ensures var env := Env(PlanFor(marshal, bindings, fields).value, results);
            Merged(env, fields).data.Some? ==> AllHeld(env, fields, Merged(env, fields).data.value)
  {
    var env := Env(PlanFor(marshal, bindings, fields).value, results);
    var response := Merged(env, fields);
    WellShapedKeysDistinct(fields, []);
    NullPropagationExact(env, fields);
    PlanServesEveryEntry(marshal, bindings, fields);
    if response.data.Some? {
      TopHeld(env, bindings, fields, response.data.value, response.errors, []);
    }
  }

  lemma {:induction false} TopHeld(env: Env, bindings: seq<Arguments.Binding>, fields: seq<Field>,
                                   members: map<string, Json>, errors: seq<Error>, path: seq<Segment>)
    requires ExplainedMembers(env, fields, members, Top, errors, path)
    requires Entries(bindings, fields).Ok? && forall e | e in Entries(bindings, fields).value :: Serves(env.plan, e)
    ensures AllHeld(env, fields, members)
    decreases fields
  {
    forall f | f in fields && f.responseKey in members && !f.IsTypename()
      ensures AllHeld(env, [f], map[f.responseKey := members[f.responseKey]])
    {
      var v, here := members[f.responseKey], path + [Member(f.responseKey)];
      assert Explained(env, f, v, Top, errors, here);
      Federation.EntriesMember(bindings, fields, f);
      if f.IsSourced() {
        if ResultFor(env, f).Answered? {
          var e := EntriesOf(bindings, f).value[0];
          Readability.EntriesOfPlanned(bindings, f);
          assert e.field == f && e in EntriesOf(bindings, f).value;
          EntryHeld(env, e, v, Object(ResultFor(env, f).data), errors, here);
        }
      } else if v.Object? {
        TopHeld(env, bindings, f.selections, v.members, errors, here);
      }
    }
  }

  lemma EntryHeld(env: Env, e: Entry, v: Json, answer: Json, errors: seq<Error>, path: seq<Segment>)
    requires Readability.EntryOf(e) && Serves(env.plan, e)
    requires var raw := ValueAt(answer, Split(e.field.source.value.providerField));
             ExplainedRead(env, e.field, v, raw, errors, path)
    ensures ValueHeld(RequestsFor(env.plan, e.field), e.field, v, answer, e.field.source.value.providerField, [])
  {
    assert forall p | p in e.paths :: p in RequestsFor(env.plan, e.field);
    if e.field.IsObjectList() {
      ItemsHeld(env, e.field, v, RequestsFor(env.plan, e.field), answer, e.field.source.value.providerField, [], errors,
                path);
    } else {
      assert e.field.source.value.providerField in e.paths;
    }
  }

  /** The items of a list, read at `at`. */
  lemma {:induction false} ItemsHeld(env: Env, f: Field, v: Json, requests: seq<string>, answer: Json, at: string,
                                     indices: seq<nat>, errors: seq<Error>, path: seq<Segment>)
    requires f.IsObjectList() && Item(ValueAt(answer, Split(at)), indices).Some?
    requires ExplainedRead(env, f, v, Item(ValueAt(answer, Split(at)), indices).value, errors, path)
    requires ScopedPaths(f.selections, f.source.value.providerField, at).Ok?
    requires forall p | p in ScopedPaths(f.selections, f.source.value.providerField, at).value :: p in requests
    ensures ValueHeld(requests, f, v, answer, at, indices)
    decreases f
  {
    var raw, declared := Item(ValueAt(answer, Split(at)), indices).value, f.source.value.providerField;
    if v.List? {
      forall i | 0 <= i < |v.items| && v.items[i].Object?
        ensures MembersHeld(requests, f.selections, v.items[i].members, answer, declared, at, indices + [i])
      {
        ItemOf(ValueAt(answer, Split(at)), indices, i);
        assert ExplainedItem(env, f, v.items[i], raw.items[i], errors, path + [Index(i)]);
        ScopedHeld(env, f.selections, v.items[i].members, raw.items[i], requests, answer, declared, at, indices + [i],
                   errors, path + [Index(i)]);
      }
    }
  }

  lemma {:induction false} ScopedHeld(env: Env, fields: seq<Field>, members: map<string, Json>, item: Json,
                                      requests: seq<string>, answer: Json, declared: string, at: string,
                                      indices: seq<nat>, errors: seq<Error>, path: seq<Segment>)
    requires ExplainedMembers(env, fields, members, Within(item, declared), errors, path)
    requires Item(ValueAt(answer, Split(at)), indices) == Some(item)
    requires ScopedPaths(fields, declared, at).Ok?
    requires forall p | p in ScopedPaths(fields, declared, at).value :: p in requests
    ensures MembersHeld(requests, fields, members, answer, declared, at, indices)
    decreases fields
  {
    forall f | f in fields && f.responseKey in members && !f.IsTypename()
      ensures var v := members[f.responseKey];
              if f.IsSourced() then
                var inner := at + "." + RelativePath(f.source.value.providerField, declared);
                ValueHeld(requests, f, v, answer, inner, indices)
              else if f.selections == [] then v == Null
              else v.Object? ==> MembersHeld(requests, f.selections, v.members, answer, declared, at, indices)
    {
      var v, here := members[f.responseKey], path + [Member(f.responseKey)];
      assert Explained(env, f, v, Within(item, declared), errors, here);
      Federation.ScopedPathsMember(fields, declared, at, f);
      if f.IsSourced() {
        var relative := RelativePath(f.source.value.providerField, declared);
        var inner := at + "." + relative;
        SplitDotted(at, relative);
        ValueAtConcat(answer, Split(at), Split(relative));
        ItemRead(ValueAt(answer, Split(at)), indices, Split(relative));
        assert Item(ValueAt(answer, Split(inner)), indices) == Some(ValueAt(item, Split(relative)));
        SourcedExplained(env, f, v, Within(item, declared), errors, here);
        if f.IsObjectList() {
          ItemsHeld(env, f, v, requests, answer, inner, indices, errors, here);
        } else {
          assert inner in ScopedPath(f, declared, at).value;
        }
      } else if v.Object? {
        ScopedHeld(env, f.selections, v.members, item, requests, answer, declared, at, indices, errors, here);
      }
    }
  }

  lemma SourcedExplained(env: Env, f: Field, v: Json, scope: Scope, errors: seq<Error>, path: seq<Segment>)
    requires Explained(env, f, v, scope, errors, path) && f.IsSourced() && Reads(env, f, scope).Some?
    ensures ExplainedRead(env, f, v, Reads(env, f, scope).value, errors, path)
    ensures !f.IsObjectList() ==> v == Reads(env, f, scope).value
  {
  }

  /** Reading below an item is reading below the list, and taking the item. */
  lemma {:induction false} ItemRead(value: Json, indices: seq<nat>, path: seq<string>)
    requires Item(value, indices).Some?
    ensures Item(ValueAt(value, path), indices) == Some(ValueAt(Item(value, indices).value, path))
    decreases |indices|
  {
    if indices != [] {
      ItemRead(value.items[indices[0]], indices[1..], path);
    }
  }

  lemma {:induction false} ItemOf(value: Json, indices: seq<nat>, i: nat)
    requires Item(value, indices).Some? && Item(value, indices).value.List? && i < |Item(value, indices).value.items|
    ensures Item(value, indices + [i]) == Some(Item(value, indices).value.items[i])
    decreases |indices|
  {
    if indices == [] {
      assert [i][1..] == [];
    } else {
      assert (indices + [i])[1..] == indices[1..] + [i];
      ItemOf(value.items[indices[0]], indices[1..], i);
    }
  }
}
