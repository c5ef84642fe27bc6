/** The consumer response that merging builds from the results of a plan's provider operations. */
module Merge {
  import opened Wrappers
  import opened Json
  import Paths
  import opened Fields
  import Plan

  datatype Segment = Member(key: string) | Index(i: nat)

  /** A reported error: where, if anywhere, and its code, if any. */
  datatype Error = Error(path: seq<Segment>, code: string)

  const PROVIDER_ERROR := "PROVIDER_ERROR"

  /** The outcome of one provider operation. */
  datatype FetchResult = Answered(data: map<string, Json>, errors: seq<Json>) | Failed

  /** What a field is read from: a provider's answer, or an item of the provider list declared at `declared`. */
  datatype Scope = Top | Within(item: Json, declared: string)

  /** The plan, and the results keyed like its operations. */
  datatype Env = Env(plan: Plan.PlanView, results: map<string, FetchResult>)

  /** A completed value; `failed` is a null that must propagate to the parent. */
  datatype ValueOut = ValueOut(value: Json, failed: bool, errors: seq<Error>)
  datatype ObjectOut = ObjectOut(members: map<string, Json>, failed: bool, errors: seq<Error>)
  datatype ItemsOut = ItemsOut(items: seq<Json>, failed: bool, errors: seq<Error>)

  /** The result a top-level field is read from. A field the plan does not know reads an empty answer. */
  function ResultFor(env: Env, f: Field): FetchResult {
    if f.path in env.plan.sources && env.plan.sources[f.path] in env.results
    then env.results[env.plan.sources[f.path]]
    else Answered(map[], [])
  }

  /** The value for `f`, propagating a null in a non-null field; `reported` says its error is already recorded. */
  function Complete(f: Field, value: Json, reported: bool, path: seq<Segment>): ValueOut {
    if value != Null then ValueOut(value, false, [])
    else if !f.definition.typ.nonNull then ValueOut(Null, false, [])
    else ValueOut(Null, true, if reported then [] else [Error(path, "")])
  }

  function WithErrors(errors: seq<Error>, out: ValueOut): ValueOut {
    out.(errors := errors + out.errors)
  }

  function MergeObject(env: Env, fields: seq<Field>, typeName: string, scope: Scope, path: seq<Segment>): ObjectOut
    decreases fields, 0
  {
    if fields == [] then ObjectOut(map[], false, [])
    else
      var v := MergeValue(env, fields[0], typeName, scope, path);
      if v.failed then ObjectOut(map[], true, v.errors)
      else
        var rest := MergeObject(env, fields[1..], typeName, scope, path);
        if rest.failed then ObjectOut(map[], true, v.errors + rest.errors)
        else ObjectOut(map[fields[0].responseKey := v.value] + rest.members, false, v.errors + rest.errors)
  }

  function MergeValue(env: Env, f: Field, parentType: string, scope: Scope, parentPath: seq<Segment>): ValueOut
    decreases f, 3
  {
    var path := parentPath + [Member(f.responseKey)];
    if f.IsTypename() then ValueOut(Text(parentType), false, [])
    else if f.IsSourced() then
      match scope
      case Within(item, declared) =>
        var relative := Paths.RelativePath(f.source.value.providerField, declared);
        MergeSourced(env, f, ValueAt(item, Paths.Split(relative)), path)
      case Top =>
        (match ResultFor(env, f)
         case Failed => WithErrors([Error(path, PROVIDER_ERROR)], Complete(f, Null, true, path))
         case Answered(data, _) =>
           MergeSourced(env, f, ValueAt(Object(data), Paths.Split(f.source.value.providerField)), path))
    else if f.selections != [] then
      var o := MergeObject(env, f.selections, f.definition.typ.BaseName(), scope, path);
      if o.failed then WithErrors(o.errors, Complete(f, Null, true, path))
      else WithErrors(o.errors, Complete(f, Object(o.members), false, path))
    else Complete(f, Null, false, path)
  }

  function MergeSourced(env: Env, f: Field, raw: Json, path: seq<Segment>): ValueOut
    requires f.IsSourced()
    decreases f, 2
  {
    if !f.IsObjectList() || raw == Null then Complete(f, raw, false, path)
    else if !raw.List? then WithErrors([Error(path, PROVIDER_ERROR)], Complete(f, Null, true, path))
    else
      var r := MergeItems(env, f, raw.items, 0, path);
      if r.failed then WithErrors(r.errors, Complete(f, Null, true, path))
      else WithErrors(r.errors, Complete(f, List(r.items), false, path))
  }

  /** The items from position `i` on. */
  function MergeItems(env: Env, f: Field, items: seq<Json>, i: nat, path: seq<Segment>): ItemsOut
    requires f.IsObjectList() && i <= |items|
    decreases f, 1, |items| - i
  {
    if i == |items| then ItemsOut([], false, [])
    else
      var v := MergeItem(env, f, items[i], path + [Index(i)]);
      if v.failed then ItemsOut([], true, v.errors)
      else
        var rest := MergeItems(env, f, items, i + 1, path);
        if rest.failed then ItemsOut([], true, v.errors + rest.errors)
        else ItemsOut([v.value] + rest.items, false, v.errors + rest.errors)
  }

  function MergeItem(env: Env, f: Field, item: Json, path: seq<Segment>): ValueOut
    requires f.IsObjectList()
    decreases f, 0
  {
    var elem := f.definition.typ.elem;
    if item == Null then ValueOut(Null, elem.nonNull, if elem.nonNull then [Error(path, "")] else [])
    else
      var o := MergeObject(env, f.selections, elem.BaseName(), Within(item, f.source.value.providerField), path);
      if o.failed then ValueOut(Null, elem.nonNull, o.errors) else ValueOut(Object(o.members), false, o.errors)
  }

  // Errors in provider answers

  /** The leading field names of the path of a provider's error. */
  function ProviderErrorPath(raw: Json): seq<string> {
    match raw
    case Object(members) =>
      (match Get(members, "path")
       case List(segments) => LeadingNames(segments)
       case _ => [])
    case _ => []
  }

  function LeadingNames(segments: seq<Json>): seq<string> {
    if segments == [] || !segments[0].Text? then [] else [segments[0].s] + LeadingNames(segments[1..])
  }

  /** Both paths are on one line down from the root, neither of them the root itself. */
  predicate Overlap(a: seq<string>, b: seq<string>) {
    a != [] && b != [] && (a <= b || b <= a)
  }

  /** Where a provider error is placed: at the first consumer field whose provider path overlaps, or nowhere. */
  function Place(consumers: seq<Field>, at: seq<string>): seq<Segment> {
    if consumers == [] then []
    else if consumers[0].source.Some? && Overlap(at, Paths.Split(consumers[0].source.value.providerField))
    then Keys(consumers[0].path)
    else Place(consumers[1..], at)
  }

  function Keys(path: seq<string>): seq<Segment> {
    seq(|path|, i requires 0 <= i < |path| => Member(path[i]))
  }

  function PassOn(consumers: seq<Field>, errors: seq<Json>): seq<Error> {
    if errors == [] then []
    else [Error(Place(consumers, ProviderErrorPath(errors[0])), PROVIDER_ERROR)] + PassOn(consumers, errors[1..])
  }

  function ProviderErrors(env: Env, fetches: seq<Plan.FetchView>): seq<Error> {
    if fetches == [] then []
    else
      var f := fetches[0];
      (if f.key in env.results && env.results[f.key].Answered?
       then PassOn(f.consumers, env.results[f.key].errors) else [])
      + ProviderErrors(env, fetches[1..])
  }

  /** The response: the root object, or none when a null propagates to the root, and the errors. */
  datatype Response = Response(data: Option<map<string, Json>>, errors: seq<Error>)

  function Merged(env: Env, fields: seq<Field>): Response {
    var o := MergeObject(env, fields, "Query", Top, []);
    Response(if o.failed then None else Some(o.members), o.errors + ProviderErrors(env, env.plan.fetches))
  }
}
