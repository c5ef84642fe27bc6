/** Policy decisions on the columns of the policy table, and what grants and revocations make of them. */
module Decisions {
  import opened Wrappers
  import Strings
  import opened Requests
  import opened Policy
  import opened AllowLists

  /** What the engine is asked about a row: the application, the row's own field, class and parameters, the time, and
      when the application's grant ends, if the row's allow-list has one for it. */
  ghost predicate AskedAbout(input: Input, row: PolicyRow, app: string, now: int) {
    && input.app == app && input.now == now
    && input.field.schemaId == row.schemaId && input.field.fieldName == row.fieldName
    && input.policyClass == row.metadata.policyClass && input.params == row.metadata.params
    && forall e :: input.grantExpiresAt == Some(e) <==> app in row.allowList && row.allowList[app].expiresAt == e
  }

  /** What is told of a row in a decision. */
  predicate Tells(record: FieldRecord, row: PolicyRow) {
    && record.fieldName == row.fieldName && record.schemaId == row.schemaId && record.owner == row.metadata.owner
    && record.displayName == row.metadata.displayName && record.description == row.metadata.description
  }

  /** The row is one of a requested schema, and its schema and field joined by a colon are the required field's. */
  predicate RowFor(rows: seq<PolicyRow>, required: seq<RequiredField>, i: nat, row: PolicyRow)
    requires i < |required|
  {
    && row in rows && (exists f | f in required :: f.schemaId == row.schemaId)
    && row.schemaId + ":" + row.fieldName == required[i].schemaId + ":" + required[i].fieldName
  }

  /** The `i`-th required field was decided on `row`: by the engine's outcome for an input about it. */
  ghost predicate DecidedBy(rows: seq<PolicyRow>, engine: Engine, app: string, required: seq<RequiredField>,
                            clock: nat -> int, i: nat, row: PolicyRow, outcome: Outcome)
    requires i < |required|
  {
    && RowFor(rows, required, i, row)
    && exists input :: AskedAbout(input, row, app, clock(i)) && engine(input) == outcome
  }

  /** Every decision is the engine's, on the columns of the row found for the field; only a field without a row has
      none. */
  lemma DecisionsAreTheEngines(rows: seq<PolicyRow>, engine: Engine, app: string, required: seq<RequiredField>,
                               clock: nat -> int, i: nat)
    requires i < |required|
    ensures var decision := DecisionOn(rows, engine, app, required, clock, i);
            && (decision.None? <==> forall row :: !RowFor(rows, required, i, row))
            && (decision.Some? ==>
                  DecidedBy(rows, engine, app, required, clock, i, decision.value.0, decision.value.1))
  {
    var f := required[i];
    LookupMember(rows, SchemasOf(required), LookupKey(f.schemaId, f.fieldName));
    var decision := DecisionOn(rows, engine, app, required, clock, i);
    if decision.Some? {
      var row := decision.value.0;
      assert AskedAbout(Evaluated(row, app, clock(i)), row, app, clock(i));
      assert RowFor(rows, required, i, row);
    } else {
      forall row ensures !RowFor(rows, required, i, row) {
      }
    }
  }

  /** The fields listed under an outcome are those decided so, told as their rows' columns say. */
  lemma ListedOnColumns(rows: seq<PolicyRow>, engine: Engine, app: string, required: seq<RequiredField>,
                        clock: nat -> int, outcome: Outcome, record: FieldRecord)
    ensures record in FieldsWith(rows, engine, app, required, clock, outcome, |required|) <==>
            exists i :: 0 <= i < |required| && DecidedAs(rows, engine, app, required, clock, outcome, i) &&
                        Tells(record, DecisionOn(rows, engine, app, required, clock, i).value.0)
  {
    ListedIffDecided(rows, engine, app, required, clock, outcome, |required|, record);
    forall i | 0 <= i < |required| && DecidedAs(rows, engine, app, required, clock, outcome, i)
      ensures var row := DecisionOn(rows, engine, app, required, clock, i).value.0;
              RecordOf(row) == record <==> Tells(record, row)
    {
    }
  }

  // What grants and revocations make of decisions

  /** The rows are those of the lists' keys, each with the list of its key. */
  predicate Carry(rows: seq<PolicyRow>, lists: Lists) {
    && (forall row | row in rows :: (row.schemaId, row.fieldName) in lists
                                    && row.allowList == lists[(row.schemaId, row.fieldName)])
    && forall k | k in lists :: exists row :: row in rows && (row.schemaId, row.fieldName) == k
  }

  /** The field was decided, and the engine told that the application's grant for it ends at `expiresAt`, or that there
      is none. */
  ghost predicate SeesGrant(rows: seq<PolicyRow>, engine: Engine, app: string, required: seq<RequiredField>,
                            clock: nat -> int, i: nat, expiresAt: Option<int>)
    requires i < |required|
  {
    var decision := DecisionOn(rows, engine, app, required, clock, i);
    && decision.Some?
    && exists input ::
         && AskedAbout(input, decision.value.0, app, clock(i)) && engine(input) == decision.value.1
         && input.grantExpiresAt == expiresAt
  }

  /** Once a grant has gone through, every decision on one of its fields sees when it ends; once a revocation has gone
      through, the decision on its field sees no grant. */
  lemma DecisionsSeeGrants(task: Task, lists: Lists, rows: seq<PolicyRow>, engine: Engine, required: seq<RequiredField>,
                           clock: nat -> int, i: nat)
    requires Succeeds(task, lists) && Carry(rows, RunAlone(task, lists)) && i < |required|
    requires (required[i].schemaId, required[i].fieldName) in task.Keys()
    requires !Clashes(rows, SchemasOf(required), required[i])
    ensures SeesGrant(rows, engine, task.app, required, clock, i,
                      if task.Granting? then Some(task.grant.expiresAt) else None)
  {
    var f, app := required[i], task.app;
    LookupMember(rows, SchemasOf(required), LookupKey(f.schemaId, f.fieldName));
    AloneChangesOneApp(task, lists, (f.schemaId, f.fieldName), app);
    var row := DecisionOn(rows, engine, app, required, clock, i).value.0;
    assert AskedAbout(Evaluated(row, app, clock(i)), row, app, clock(i));
  }

  /** The `c`-th step of a run commits a transaction, and up to the `n`-th state no other one of the application that
      names the row has committed. */
  ghost predicate LastToName(trace: seq<State>, steps: seq<Step>, c: nat, n: nat, k: Key, app: string) {
    && c < n < |trace| && c < |steps| && |trace| == |steps| + 1
    && steps[c].Commit? && steps[c].i in trace[c].txs
    && forall d | c < d < n && steps[d].Commit? && steps[d].i in trace[d].txs ::
         trace[d].txs[steps[d].i].task.app != app || k !in trace[d].txs[steps[d].i].task.Keys()
  }

  /** In every interleaving the last transaction that went through for an application and a field decides what a
      decision on it sees. */
  lemma DecisionsSeeTheLastGrant(start: Lists, trace: seq<State>, steps: seq<Step>, c: nat, n: nat,
                                 rows: seq<PolicyRow>, engine: Engine, required: seq<RequiredField>,
                                 clock: nat -> int, i: nat)
    requires AllowLists.Run(start, trace, steps) && i < |required|
    requires c < n < |trace| && steps[c].Commit? && steps[c].i in trace[c].txs
    requires var task, k := trace[c].txs[steps[c].i].task, (required[i].schemaId, required[i].fieldName);
             Succeeds(task, trace[c].lists) && k in task.Keys() && LastToName(trace, steps, c, n, k, task.app)
    requires Carry(rows, trace[n].lists) && !Clashes(rows, SchemasOf(required), required[i])
    ensures var task := trace[c].txs[steps[c].i].task;
            SeesGrant(rows, engine, task.app, required, clock, i,
                      if task.Granting? then Some(task.grant.expiresAt) else None)
  {
    var task, f := trace[c].txs[steps[c].i].task, required[i];
    var k := (f.schemaId, f.fieldName);
    EntryStays(start, trace, steps, c, n, k);
    LookupMember(rows, SchemasOf(required), LookupKey(f.schemaId, f.fieldName));
    var row := DecisionOn(rows, engine, task.app, required, clock, i).value.0;
    assert AskedAbout(Evaluated(row, task.app, clock(i)), row, task.app, clock(i));
  }

  lemma {:induction false} EntryStays(start: Lists, trace: seq<State>, steps: seq<Step>, c: nat, n: nat, k: Key)
    requires AllowLists.Run(start, trace, steps) && c < n < |trace| && steps[c].Commit? && steps[c].i in trace[c].txs
    requires var task := trace[c].txs[steps[c].i].task;
             Succeeds(task, trace[c].lists) && k in task.Keys() && LastToName(trace, steps, c, n, k, task.app)
    ensures var task, lists := trace[c].txs[steps[c].i].task, trace[n].lists;
            && k in lists
            && if task.Granting? then task.app in lists[k] && lists[k][task.app] == task.grant
               else task.app !in lists[k]
    decreases n
  {
    var task := trace[c].txs[steps[c].i].task;
    TransactionsSerialize(start, trace, steps, n - 1);
    assert Enabled(trace[n - 1], steps[n - 1]) && trace[n] == Next(trace[n - 1], steps[n - 1]);
    if n - 1 == c {
      AloneChangesOneApp(task, trace[c].lists, k, task.app);
    } else {
      EntryStays(start, trace, steps, c, n - 1, k);
      if steps[n - 1].Commit? {
        AloneChangesOneApp(trace[n - 1].txs[steps[n - 1].i].task, trace[n - 1].lists, k, task.app);
      } else {
        assert trace[n].lists == trace[n - 1].lists;
      }
    }
  }
}
