/** Merging as the federator runs it: one pass over the operation that collects errors as it goes. */
module Merger {
  import opened Wrappers
  import opened Json
  import opened Paths
  import opened Fields
  import Plan
  import opened Merge
  import opened Reports
  import Sequences

  class Merger {
    const env: Env
    var errors: seq<Error>

    constructor (env: Env)
      ensures this.env == env && errors == []
    {
      this.env := env;
      errors := [];
    }

    method FieldError(code: string, path: seq<Segment>)
      modifies this
      ensures errors == old(errors) + [Error(path, code)]
    {
      errors := errors + [Error(path, code)];
    }

    method CompleteValue(f: Field, value: Json, reported: bool, path: seq<Segment>) returns (out: Json, failed: bool)
      modifies this
      ensures out == value && (failed <==> value == Null && f.definition.typ.nonNull)
      ensures errors == if failed && !reported then old(errors) + [Error(path, "")] else old(errors)
    {
      if value != Null {
        return value, false;
      }
      if !f.definition.typ.nonNull {
        return Null, false;
      }
      if !reported {
        FieldError("", path);
      }
      return Null, true;
    }

    method MembersOf(fields: seq<Field>, typeName: string, scope: Scope, path: seq<Segment>)
      returns (out: map<string, Json>, failed: bool)
      modifies this
      ensures var spec := MergeObject(env, fields, typeName, scope, path);
              out == spec.members && failed == spec.failed && errors == old(errors) + spec.errors
      decreases fields, 0
    {
      out := map[];
      ghost var spec := MergeObject(env, fields, typeName, scope, path);
      assert fields[0..] == fields;
      assert map[] + spec.members == spec.members;
      for i := 0 to |fields|
        invariant var rest := MergeObject(env, fields[i..], typeName, scope, path);
                  && spec.failed == rest.failed
                  && old(errors) + spec.errors == errors + rest.errors
                  && (!spec.failed ==> spec.members == out + rest.members)
      {
        ObjectStep(env, fields, i, typeName, scope, path, errors, out);
        var value, nullField := ValueOf(fields[i], typeName, scope, path);
        if nullField {
          FailedHasNoMembers(env, fields, typeName, scope, path);
          return map[], true;
        }
        out := out[fields[i].responseKey := value];
      }
      assert fields[|fields|..] == [];
      assert out + map[] == out;
      failed := false;
    }

    method ValueOf(f: Field, parentType: string, scope: Scope, parentPath: seq<Segment>)
      returns (out: Json, failed: bool)
      modifies this
      ensures var spec := MergeValue(env, f, parentType, scope, parentPath);
              out == spec.value && failed == spec.failed && errors == old(errors) + spec.errors
      decreases f, 2
    {
      var path := parentPath + [Member(f.responseKey)];
      if f.IsTypename() {
        return Text(parentType), false;
      }
      var hasSelections := f.selections != [];
      if f.source.Some? && (f.IsList() || !hasSelections) {
        var provider := f.source.value.providerField;
        var raw: Json;
        match scope {
          case Within(item, declared) =>
            raw := ValueAt(item, Split(RelativePath(provider, declared)));
          case Top =>
            var result := Answered(map[], []);
            if f.path in env.plan.sources && env.plan.sources[f.path] in env.results {
              result := env.results[env.plan.sources[f.path]];
            }
            if result.Failed? {
              FieldError(PROVIDER_ERROR, path);
              out, failed := CompleteValue(f, Null, true, path);
              return;
            }
            raw := ValueAt(Object(result.data), Split(provider));
        }
        if f.IsList() && hasSelections {
          out, failed := ListOf(f, raw, path);
        } else {
          out, failed := CompleteValue(f, raw, false, path);
        }
      } else if hasSelections {
        var members, nullObject := MembersOf(f.selections, f.definition.typ.BaseName(), scope, path);
        if nullObject {
          out, failed := CompleteValue(f, Null, true, path);
        } else {
          out, failed := CompleteValue(f, Object(members), false, path);
        }
      } else {
        out, failed := CompleteValue(f, Null, false, path);
      }
    }

    method ListOf(f: Field, raw: Json, path: seq<Segment>) returns (out: Json, failed: bool)
      requires f.IsObjectList()
      modifies this
      ensures var spec := MergeSourced(env, f, raw, path);
              out == spec.value && failed == spec.failed && errors == old(errors) + spec.errors
      decreases f, 1
    {
      if raw == Null {
        out, failed := CompleteValue(f, Null, false, path);
        return;
      }
      if !raw.List? {
        FieldError(PROVIDER_ERROR, path);
        out, failed := CompleteValue(f, Null, true, path);
        return;
      }
      var items, cut := ItemsOf(f, raw.items, path);
      if cut {
        out, failed := CompleteValue(f, Null, true, path);
      } else {
        out, failed := CompleteValue(f, List(items), false, path);
      }
    }

    /** The completed items, or that a null item nulls the list. */
    method ItemsOf(f: Field, items: seq<Json>, path: seq<Segment>) returns (out: seq<Json>, cut: bool)
      requires f.IsObjectList()
      modifies this
      ensures var spec := MergeItems(env, f, items, 0, path);
              (!cut ==> out == spec.items) && cut == spec.failed && errors == old(errors) + spec.errors
      decreases f, 0, 1
    {
      out := [];
      ghost var spec := MergeItems(env, f, items, 0, path);
      assert [] + spec.items == spec.items;
      for i := 0 to |items|
        invariant var rest := MergeItems(env, f, items, i, path);
                  && spec.failed == rest.failed
                  && old(errors) + spec.errors == errors + rest.errors
                  && (!spec.failed ==> spec.items == out + rest.items)
      {
        var value, nullItem := ItemOf(f, items[i], path + [Index(i)]);
        if nullItem {
          return [], true;
        }
        out := out + [value];
      }
      assert out + [] == out;
      cut := false;
    }

    method ItemOf(f: Field, item: Json, path: seq<Segment>) returns (out: Json, failed: bool)
      requires f.IsObjectList()
      modifies this
      ensures var spec := MergeItem(env, f, item, path);
              out == spec.value && failed == spec.failed && errors == old(errors) + spec.errors
      decreases f, 0, 0
    {
      var elem := f.definition.typ.elem;
      if item != Null {
        var members, nullObject := MembersOf(f.selections, elem.BaseName(),
                                             Within(item, f.source.value.providerField), path);
        if !nullObject {
          return Object(members), false;
        }
      } else if elem.nonNull {
        FieldError("", path);
      }
      return Null, elem.nonNull;
    }

    /** Passes on the errors in provider answers, each placed at the first consumer field it overlaps. */
    method PassOnErrors()
      modifies this
      ensures errors == old(errors) + ProviderErrors(env, env.plan.fetches)
    {
      var fetches := env.plan.fetches;
      assert fetches[0..] == fetches;
      ghost var all := errors + ProviderErrors(env, fetches);
      for i := 0 to |fetches|
        invariant all == errors + ProviderErrors(env, fetches[i..])
      {
        var f := fetches[i];
        FetchStep(env, fetches, i, errors);
        if f.key in env.results && env.results[f.key].Answered? {
          PassOnAll(f.consumers, env.results[f.key].errors);
        }
      }
      assert fetches[|fetches|..] == [];
    }

    method PassOnAll(consumers: seq<Field>, reported: seq<Json>)
      modifies this
      ensures errors == old(errors) + PassOn(consumers, reported)
    {
      assert reported[0..] == reported;
      for i := 0 to |reported|
        invariant old(errors) + PassOn(consumers, reported) == errors + PassOn(consumers, reported[i..])
      {
        PassOnStep(consumers, reported, i, errors);
        var path := PlaceOf(consumers, ProviderErrorPath(reported[i]));
        FieldError(PROVIDER_ERROR, path);
      }
      assert reported[|reported|..] == [];
    }
  }

  method PlaceOf(consumers: seq<Field>, at: seq<string>) returns (path: seq<Segment>)
    ensures path == Place(consumers, at)
  {
    assert consumers[0..] == consumers;
    for i := 0 to |consumers|
      invariant Place(consumers, at) == Place(consumers[i..], at)
    {
      assert consumers[i..][0] == consumers[i] && consumers[i..][1..] == consumers[i + 1..];
      if consumers[i].source.Some? && Overlap(at, Split(consumers[i].source.value.providerField)) {
        return Keys(consumers[i].path);
      }
    }
    path := [];
  }

  lemma FetchStep(env: Env, fetches: seq<Plan.FetchView>, i: nat, errors: seq<Error>)
    requires i < |fetches|
    ensures var f := fetches[i];
            var all, rest := ProviderErrors(env, fetches[i..]), ProviderErrors(env, fetches[i + 1..]);
            errors + all ==
            if f.key in env.results && env.results[f.key].Answered?
            then (errors + PassOn(f.consumers, env.results[f.key].errors)) + rest
            else errors + rest
  {
    assert fetches[i..][0] == fetches[i] && fetches[i..][1..] == fetches[i + 1..];
  }

  lemma PassOnStep(consumers: seq<Field>, reported: seq<Json>, i: nat, errors: seq<Error>)
    requires i < |reported|
    ensures errors + PassOn(consumers, reported[i..]) ==
            (errors + [Error(Place(consumers, ProviderErrorPath(reported[i])), PROVIDER_ERROR)])
            + PassOn(consumers, reported[i + 1..])
  {
    assert reported[i..][0] == reported[i] && reported[i..][1..] == reported[i + 1..];
  }

  /** The fields from the `i`-th on: the `i`-th, then the rest. */
  lemma ObjectStep(env: Env, fields: seq<Field>, i: nat, typeName: string, scope: Scope, path: seq<Segment>,
                   errors: seq<Error>, out: map<string, Json>)
    requires i < |fields|
    ensures var all := MergeObject(env, fields[i..], typeName, scope, path);
            var v := MergeValue(env, fields[i], typeName, scope, path);
            var rest := MergeObject(env, fields[i + 1..], typeName, scope, path);
            && all.failed == (v.failed || rest.failed)
            && errors + all.errors == (if v.failed then errors + v.errors else (errors + v.errors) + rest.errors)
            && (!all.failed ==> out + all.members == out[fields[i].responseKey := v.value] + rest.members)
  {
    var v := MergeValue(env, fields[i], typeName, scope, path);
    var rest := MergeObject(env, fields[i + 1..], typeName, scope, path);
    assert fields[i..][1..] == fields[i + 1..];
    Sequences.ConcatAssociates(errors, v.errors, rest.errors);
    PutFirst(out, fields[i].responseKey, v.value, rest.members);
  }

  lemma PutFirst(out: map<string, Json>, key: string, value: Json, rest: map<string, Json>)
    ensures out + (map[key := value] + rest) == out[key := value] + rest
  {
  }

  lemma FailedHasNoMembers(env: Env, fields: seq<Field>, typeName: string, scope: Scope, path: seq<Segment>)
    ensures var o := MergeObject(env, fields, typeName, scope, path);
            o.failed ==> o.members == map[]
  {
  }

  /** The consumer response built from the results of the plan's provider operations. After its own errors come those
      of the providers, every one of them, each at the field it concerns. */
  method MergeResults(env: Env, fields: seq<Field>) returns (response: Response)
    ensures response == Merged(env, fields)
    ensures AllPassedOn(env, |MergeObject(env, fields, "Query", Top, []).errors|, response.errors)
  {
    var m := new Merger(env);
    var members, failed := m.MembersOf(fields, "Query", Top, []);
    m.PassOnErrors();
    response := Response(if failed then None else Some(members), m.errors);
    EveryErrorIsPassedOn(env, fields);
  }
}
