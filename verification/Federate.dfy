/** From a consumer query to its response: normalization, planning, execution and merging joined. */
module Federate {
  import opened Wrappers
  import Json
  import Fields
  import Document
  import Collection
  import opened Normalize
  import Outline
  import Arguments
  import Operation
  import Plan
  import opened Merge
  import Supplies
  import Reference
  import Meaning
  import opened Nulls
  import opened Execution

  /** Normalizing the query's root selection set as the federator does gives what the specification says, and what the
      query selects, read off it directly. */
  lemma RootNormalized(c: Document.Context, rank: string -> nat, query: seq<Document.Selection>)
    requires Collection.Ranked(c, rank)
    ensures Build(c, rank, "Query", [query], [], []) == Specified(c, rank, "Query", query, [], [])
    ensures var r := Build(c, rank, "Query", [query], [], []);
            r.Ok? ==> Fields.WellShaped(r.value, []) && Outline.Outlined(c, "Query", query, r.value)
  {
    BuildIsSpecified(c, rank, "Query", [query], [query], [], []);
    SingleSet(query);
    BuildWellShaped(c, rank, "Query", [query], [], []);
    Outline.NormalizedIsOutlined(c, rank, "Query", query, [], []);
  }

  lemma SingleSet(query: seq<Document.Selection>)
    ensures Concat([query]) == query
  {
    assert [query][..0] == [];
    assert Concat([query]) == Concat([]) + Itself(query);
  }

  /** A query answered by the federator is the query executed directly: its fields collected as the specification says
      and resolved against the providers' own data, each under the arguments the query gives it or an ancestor, with the
      same nulls, whatever order provider calls finish in. */
  lemma FederatedQueryIsExecuted(c: Document.Context, rank: string -> nat, query: seq<Document.Selection>,
                                 mappings: seq<Option<Arguments.ArgMapping>>, marshal: Json.Json -> string,
                                 fields: seq<Fields.Field>, world: Reference.World, providers: set<string>,
                                 trace: seq<State>, steps: seq<Step>)
    requires Collection.Ranked(c, rank)
    requires Build(c, rank, "Query", [query], [], []) == Ok(fields)
    requires Meaning.Plannable(marshal, Operation.BindArguments(mappings, fields), fields)
    requires var fetches := Plan.PlanFor(marshal, Operation.BindArguments(mappings, fields), fields).value.fetches;
             && Run(fetches, providers, trace, steps) && Finished(trace[|trace| - 1])
             && forall i: nat, result | i < |fetches| && Respond(i, result) in steps ::
                  Meaning.Answers(fetches[i], world, result)
    ensures Specified(c, rank, "Query", query, [], []) == Ok(fields)
    ensures var bindings := Operation.BindArguments(mappings, fields);
            var plan := Plan.PlanFor(marshal, bindings, fields).value;
            var response := Merged(Env(plan, trace[|trace| - 1].results), fields);
            && response.data == Reference.ExecuteSet(Reachable(world, providers), Supplies.Supplied(mappings, fields),
                                                     fields, "Query", Top)
            && (response.data.Some? ==> PermittedMembers(fields, response.data.value))
            && (response.data.None? ==> response.errors != [])
  {
    var bindings := Operation.BindArguments(mappings, fields);
    RootNormalized(c, rank, query);
    WellShapedKeysDistinct(fields, []);
    ConcurrentFederationPreservesMeaning(marshal, bindings, fields, world, providers, trace, steps);
    Supplies.SameExecution(Reachable(world, providers), mappings, fields, "Query", Top);
    NullPropagationExact(Env(Plan.PlanFor(marshal, bindings, fields).value, trace[|trace| - 1].results), fields);
  }
}
