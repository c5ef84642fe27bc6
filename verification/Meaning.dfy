/** The main results about federation: planning, executing in any order and merging, taken together. */
module Meaning {
  import opened Wrappers
  import opened Json
  import opened Fields
  import opened Arguments
  import opened Selection
  import Printing
  import opened Plan
  import opened Merge
  import opened Reference
  import opened Federation
  import opened Readability

  /** What planning an operation demands of the configuration and the schema: names without NULs, no operation that
      requests a path below another, and, of every object list, something that is asked for. */
  ghost predicate Plannable(marshal: Json -> string, bindings: seq<Binding>, fields: seq<Field>) {
    && WellPlanned(marshal, bindings, fields)
    && RequestsPrefixFree(PlanFor(marshal, bindings, fields).value)
    && AllCovered(PlanFor(marshal, bindings, fields).value, Entries(bindings, fields).value)
  }

  /** The normalized operation has a plan, whose keys can be told apart. */
  ghost predicate WellPlanned(marshal: Json -> string, bindings: seq<Binding>, fields: seq<Field>) {
    && Arguments.Faithful(marshal)
    && CleanEntries(bindings, fields)
    && WellShaped(fields, [])
    && PlanFor(marshal, bindings, fields).Ok?
  }

  /** It is enough that every object list has something sourced below it and no operation requests a path below
      another. */
  lemma ReadingLists(marshal: Json -> string, bindings: seq<Binding>, fields: seq<Field>)
    requires WellPlanned(marshal, bindings, fields) && ListsReadSomething(fields)
    requires RequestsPrefixFree(PlanFor(marshal, bindings, fields).value)
    ensures Plannable(marshal, bindings, fields)
  {
    var plan, entries := PlanFor(marshal, bindings, fields).value, Entries(bindings, fields).value;
    PlanServesEveryEntry(marshal, bindings, fields);
    EntriesArePlanned(bindings, fields);
    EntriesSourced(bindings, fields);
    forall e | e in entries
      ensures FieldCovered(Printing.Asked(ServedBy(plan, e).fields, ServedBy(plan, e).args), e.field)
    {
      EntriesReadSomething(fields, e.field);
      EntryReadsCovered(Printing.Asked(ServedBy(plan, e).fields, ServedBy(plan, e).args), e);
    }
  }

  /** `result` is what `world` answers to the printed operation of `f`: a failure, or data that holds the provider's own
      data wherever the operation selects it. */
  ghost predicate Answers(f: FetchView, world: World, result: FetchResult) {
    match world(f.schemaId, f.args)
    case None => result.Failed?
    case Some(data) =>
      result.Answered? && CoversRoot(SentTree(f), data, result.data)
  }

  ghost predicate AllAnswered(plan: PlanView, world: World, results: map<string, FetchResult>) {
    forall f | f in plan.fetches :: f.key in results && Answers(f, world, results[f.key])
  }

  /** Federation preserves meaning: when every provider operation is answered with what the provider holds, or fails,
      the merged data is what direct execution against the full provider data gives, null propagation included. */
  lemma FederationPreservesMeaning(marshal: Json -> string, bindings: seq<Binding>, fields: seq<Field>, world: World,
                                   results: map<string, FetchResult>)
    requires Plannable(marshal, bindings, fields)
    requires AllAnswered(PlanFor(marshal, bindings, fields).value, world, results)
    ensures Merged(Env(PlanFor(marshal, bindings, fields).value, results), fields).data ==
            ExecuteSet(world, Bound(bindings), fields, "Query", Top)
  {
    var plan := PlanFor(marshal, bindings, fields).value;
    PlanServesEveryEntry(marshal, bindings, fields);
    ReadableIffRequested(marshal, bindings, fields);
    forall e | e in Entries(bindings, fields).value ensures AnsweredFaithfully(Env(plan, results), world, e) {
      var f := ServedBy(plan, e);
      assert f in plan.fetches && Answers(f, world, results[f.key]);
    }
    SetsAgree(Env(plan, results), world, bindings, fields, "Query", Top, Top, EMPTY_TREE, []);
  }

  // Nothing outside what operations select is read

  /** The result cut down to what the operation selects. */
  function Cut(f: FetchView, result: FetchResult): FetchResult {
    match result
    case Failed => Failed
    case Answered(data, errors) => Answered(ProjectRoot(SentTree(f), data), errors)
  }

  ghost function HeldBy(plan: PlanView, results: map<string, FetchResult>): World {
    (schemaId, args) =>
      if exists f :: f in plan.fetches && f.schemaId == schemaId && f.args == args then
        var f :| f in plan.fetches && f.schemaId == schemaId && f.args == args;
        if f.key in results && results[f.key].Answered? then Some(results[f.key].data) else None
      else None
  }

  lemma CutAnswers(marshal: Json -> string, plan: PlanView, results: map<string, FetchResult>, f: FetchView)
    requires Keyed(marshal, plan) && f in plan.fetches && f.key in results
    ensures Answers(f, HeldBy(plan, results), results[f.key])
    ensures Answers(f, HeldBy(plan, results), Cut(f, results[f.key]))
  {
    if results[f.key].Answered? {
      Printing.PrintedTreeDistinct(f.fields, f.args);
      ProjectRootCovers(SentTree(f), results[f.key].data);
      CoversRootSelf(SentTree(f), results[f.key].data);
    }
  }

  /** The merged data depends on provider answers only where their operations select something: cutting every answer
      down to what its operation selects changes nothing, so nothing beyond it reaches the consumer. */
  lemma OnlySelectedIsRead(marshal: Json -> string, bindings: seq<Binding>, fields: seq<Field>,
                           results: map<string, FetchResult>, cut: map<string, FetchResult>)
    requires Plannable(marshal, bindings, fields)
    requires forall f | f in PlanFor(marshal, bindings, fields).value.fetches ::
               f.key in results && f.key in cut && cut[f.key] == Cut(f, results[f.key])
    ensures var plan := PlanFor(marshal, bindings, fields).value;
            Merged(Env(plan, results), fields).data == Merged(Env(plan, cut), fields).data
  {
    var plan := PlanFor(marshal, bindings, fields).value;
    var world := HeldBy(plan, results);
    PlanServesEveryEntry(marshal, bindings, fields);
    forall f | f in plan.fetches ensures Answers(f, world, results[f.key]) && Answers(f, world, cut[f.key]) {
      CutAnswers(marshal, plan, results, f);
    }
    FederationPreservesMeaning(marshal, bindings, fields, world, results);
    FederationPreservesMeaning(marshal, bindings, fields, world, cut);
  }
}
