/** Running a plan's provider operations concurrently, and what any order of their steps leaves. */
module Execution {
  import opened Wrappers
  import Json
  import Fields
  import Arguments
  import opened Plan
  import opened Merge
  import Federation
  import opened Meaning
  import Reference

  /** How far one provider operation has come. */
  datatype Call = Waiting | InFlight | Received(result: FetchResult) | Recorded(result: FetchResult) | NoProvider
  {
    predicate Settled() {
      Recorded? || NoProvider?
    }

    /** What the results must hold for the operation: its answer, or a failure when no provider is configured. */
    function Outcome(): FetchResult
      requires Settled()
    {
      if Recorded? then result else Failed
    }
  }

  /** Operations passed by the launching loop, every operation's call, and the shared results. */
  datatype State = State(launched: nat, calls: seq<Call>, results: map<string, FetchResult>)

  /** The loop starts a call, or records that no provider is configured; a provider answers or fails; a finished call
      records its answer. */
  datatype Step = Launch | Respond(i: nat, result: FetchResult) | Record(i: nat)

  function Start(fetches: seq<FetchView>): State {
    State(0, seq(|fetches|, _ => Waiting), map[])
  }

  predicate Enabled(fetches: seq<FetchView>, s: State, step: Step) {
    && |s.calls| == |fetches|
    && match step
       case Launch => s.launched < |fetches|
       case Respond(i, _) => i < |s.calls| && s.calls[i].InFlight?
       case Record(i) => i < |s.calls| && s.calls[i].Received?
  }

  function Next(fetches: seq<FetchView>, providers: set<string>, s: State, step: Step): State
    requires Enabled(fetches, s, step)
  {
    match step
    case Launch =>
      var i := s.launched;
      if fetches[i].schemaId in providers then State(i + 1, s.calls[i := InFlight], s.results)
      else State(i + 1, s.calls[i := NoProvider], s.results[fetches[i].key := Failed])
    case Respond(i, result) =>
      s.(calls := s.calls[i := Received(result)])
    case Record(i) =>
      var result := s.calls[i].result;
      s.(calls := s.calls[i := Recorded(result)], results := s.results[fetches[i].key := result])
  }

  predicate Finished(s: State) {
    s.launched == |s.calls| && forall i | 0 <= i < |s.calls| :: s.calls[i].Settled()
  }

  /** A run of the steps in any order. */
  ghost predicate Run(fetches: seq<FetchView>, providers: set<string>, trace: seq<State>, steps: seq<Step>) {
    && |trace| == |steps| + 1
    && trace[0] == Start(fetches)
    && forall i | 0 <= i < |steps| ::
         Enabled(fetches, trace[i], steps[i]) && trace[i + 1] == Next(fetches, providers, trace[i], steps[i])
  }

  predicate DistinctKeys(fetches: seq<FetchView>) {
    forall i, j | 0 <= i < j < |fetches| :: fetches[i].key != fetches[j].key
  }

  predicate CallConsistent(f: FetchView, providers: set<string>, passed: bool, call: Call,
                           results: map<string, FetchResult>) {
    && (call.Waiting? <==> !passed)
    && (call.NoProvider? ==> f.schemaId !in providers)
    && (call.InFlight? || call.Received? || call.Recorded? ==> f.schemaId in providers)
    && (f.key in results <==> call.Settled())
    && (call.Settled() ==> results[f.key] == call.Outcome())
  }

  /** The results hold the outcomes of the settled operations and nothing else. */
  ghost predicate Consistent(fetches: seq<FetchView>, providers: set<string>, s: State) {
    && s.launched <= |fetches| == |s.calls|
    && (forall i | 0 <= i < |fetches| :: CallConsistent(fetches[i], providers, i < s.launched, s.calls[i], s.results))
    && (forall key | key in s.results :: exists i :: 0 <= i < |fetches| && fetches[i].key == key)
  }

  lemma StepKeepsConsistent(fetches: seq<FetchView>, providers: set<string>, s: State, step: Step)
    requires DistinctKeys(fetches) && Consistent(fetches, providers, s) && Enabled(fetches, s, step)
    ensures Consistent(fetches, providers, Next(fetches, providers, s, step))
  {
    var t := Next(fetches, providers, s, step);
    var at := if step.Launch? then s.launched else step.i;
    forall i | 0 <= i < |fetches|
      ensures CallConsistent(fetches[i], providers, i < t.launched, t.calls[i], t.results)
    {
      assert CallConsistent(fetches[i], providers, i < s.launched, s.calls[i], s.results);
      assert i != at ==> fetches[i].key != fetches[at].key;
    }
  }

  lemma {:induction false} RunsAreConsistent(fetches: seq<FetchView>, providers: set<string>, trace: seq<State>,
                                             steps: seq<Step>)
    requires DistinctKeys(fetches) && Run(fetches, providers, trace, steps)
    ensures Consistent(fetches, providers, trace[|trace| - 1])
    decreases |steps|
  {
    if steps != [] {
      var n := |steps| - 1;
      assert Enabled(fetches, trace[n], steps[n]) && trace[n + 1] == Next(fetches, providers, trace[n], steps[n]);
      RunsAreConsistent(fetches, providers, trace[..n + 1], steps[..n]);
      StepKeepsConsistent(fetches, providers, trace[n], steps[n]);
    }
  }

  /** What has been received for the `i`-th operation is the one answer its provider gave. */
  ghost predicate Told(steps: seq<Step>, i: nat, call: Call) {
    forall result :: Respond(i, result) in steps <==> (call.Received? || call.Recorded?) && call.result == result
  }

  lemma {:induction false} AnswersAreKept(fetches: seq<FetchView>, providers: set<string>, trace: seq<State>,
                                          steps: seq<Step>)
    requires DistinctKeys(fetches) && Run(fetches, providers, trace, steps)
    ensures var calls := trace[|trace| - 1].calls; forall i | 0 <= i < |calls| :: Told(steps, i, calls[i])
    decreases |steps|
  {
    if steps != [] {
      var n := |steps| - 1;
      var s, t := trace[n], trace[n + 1];
      assert Enabled(fetches, s, steps[n]) && t == Next(fetches, providers, s, steps[n]);
      AnswersAreKept(fetches, providers, trace[..n + 1], steps[..n]);
      RunsAreConsistent(fetches, providers, trace[..n + 1], steps[..n]);
      assert steps == steps[..n] + [steps[n]];
      forall i | 0 <= i < |t.calls| ensures Told(steps, i, t.calls[i]) {
        assert Told(steps[..n], i, s.calls[i]);
        assert CallConsistent(fetches[i], providers, i < s.launched, s.calls[i], s.results);
      }
    }
  }

  /** Whatever the order in which calls start, answer and record, the results hold exactly one outcome for every
      operation: the one answer its own provider gave, or a failure if none is configured. */
  lemma ResultsAreTheOutcomes(fetches: seq<FetchView>, providers: set<string>, trace: seq<State>, steps: seq<Step>)
    requires DistinctKeys(fetches) && Run(fetches, providers, trace, steps) && Finished(trace[|trace| - 1])
    ensures var results := trace[|trace| - 1].results;
            && (forall i | 0 <= i < |fetches| ::
                  && fetches[i].key in results
                  && if fetches[i].schemaId in providers
                     then forall result :: Respond(i, result) in steps <==> results[fetches[i].key] == result
                     else results[fetches[i].key] == Failed)
            && (forall key | key in results :: exists i :: 0 <= i < |fetches| && fetches[i].key == key)
  {
    RunsAreConsistent(fetches, providers, trace, steps);
    AnswersAreKept(fetches, providers, trace, steps);
    var s := trace[|trace| - 1];
    forall i | 0 <= i < |fetches|
      ensures && fetches[i].key in s.results
              && if fetches[i].schemaId in providers
                 then forall result :: Respond(i, result) in steps <==> s.results[fetches[i].key] == result
                 else s.results[fetches[i].key] == Failed
    {
      assert s.calls[i].Settled() && CallConsistent(fetches[i], providers, i < s.launched, s.calls[i], s.results);
      assert Told(steps, i, s.calls[i]);
    }
  }

  /** Two runs in which every provider gives the same answer leave the same results. */
  lemma OrderDoesNotMatter(fetches: seq<FetchView>, providers: set<string>, a: seq<State>, p: seq<Step>,
                           b: seq<State>, q: seq<Step>)
    requires DistinctKeys(fetches) && Run(fetches, providers, a, p) && Run(fetches, providers, b, q)
    requires Finished(a[|a| - 1]) && Finished(b[|b| - 1])
    requires forall i: nat, result :: Respond(i, result) in p <==> Respond(i, result) in q
    ensures a[|a| - 1].results == b[|b| - 1].results
  {
    ResultsAreTheOutcomes(fetches, providers, a, p);
    ResultsAreTheOutcomes(fetches, providers, b, q);
    var s, t := a[|a| - 1].results, b[|b| - 1].results;
    forall key | key in s ensures key in t && s[key] == t[key] {
      var i :| 0 <= i < |fetches| && fetches[i].key == key;
      if fetches[i].schemaId in providers {
        assert Respond(i, s[key]) in q;
      }
    }
    forall key | key in t ensures key in s {
      var i :| 0 <= i < |fetches| && fetches[i].key == key;
    }
  }

  // Every run ends

  function Weight(call: Call): nat {
    match call
    case Waiting => 3
    case InFlight => 2
    case Received(_) => 1
    case _ => 0
  }

  /** The most steps the calls can still take. */
  function StepsLeft(calls: seq<Call>): nat {
    if calls == [] then 0 else Weight(calls[0]) + StepsLeft(calls[1..])
  }

  lemma {:induction false} StepsLeftUpdate(calls: seq<Call>, i: nat, call: Call)
    requires i < |calls|
    ensures StepsLeft(calls[i := call]) == StepsLeft(calls) - Weight(calls[i]) + Weight(call)
  {
    if i == 0 {
      assert calls[0 := call][1..] == calls[1..];
    } else {
      assert calls[i := call][1..] == calls[1..][i - 1 := call];
      StepsLeftUpdate(calls[1..], i - 1, call);
    }
  }

  /** Every step brings the end nearer, and an unfinished execution has a step to take: the join is reached. */
  lemma RunsEnd(fetches: seq<FetchView>, providers: set<string>, s: State)
    requires Consistent(fetches, providers, s)
    ensures forall step | Enabled(fetches, s, step) ::
              StepsLeft(Next(fetches, providers, s, step).calls) < StepsLeft(s.calls)
    ensures Finished(s) || exists step :: Enabled(fetches, s, step)
  {
    forall step | Enabled(fetches, s, step)
      ensures StepsLeft(Next(fetches, providers, s, step).calls) < StepsLeft(s.calls)
    {
      var i := if step.Launch? then s.launched else step.i;
      assert CallConsistent(fetches[i], providers, i < s.launched, s.calls[i], s.results);
      StepsLeftUpdate(s.calls, i, Next(fetches, providers, s, step).calls[i]);
    }
    if s.launched < |fetches| {
      assert Enabled(fetches, s, Launch);
    } else if i :| 0 <= i < |s.calls| && !s.calls[i].Settled() {
      assert CallConsistent(fetches[i], providers, i < s.launched, s.calls[i], s.results);
      assert Enabled(fetches, s, if s.calls[i].InFlight? then Respond(i, Failed) else Record(i));
    }
  }

  // Federation with concurrent calls

  /** What the providers hold, as far as one is configured. */
  ghost function Reachable(world: Reference.World, providers: set<string>): Reference.World {
    (schemaId, args) => if schemaId in providers then world(schemaId, args) else None
  }

  /** Federation preserves meaning whatever order provider calls finish in: when every answer given is what the
      provider holds, the merged data is what direct execution gives against the configured providers. */
  lemma ConcurrentFederationPreservesMeaning(marshal: Json.Json -> string, bindings: seq<Arguments.Binding>,
                                             fields: seq<Fields.Field>, world: Reference.World,
                                             providers: set<string>, trace: seq<State>, steps: seq<Step>)
    requires Plannable(marshal, bindings, fields)
    requires Run(PlanFor(marshal, bindings, fields).value.fetches, providers, trace, steps)
    requires Finished(trace[|trace| - 1])
    requires var fetches := PlanFor(marshal, bindings, fields).value.fetches;
             forall i: nat, result | i < |fetches| && Respond(i, result) in steps :: Answers(fetches[i], world, result)
    ensures var plan := PlanFor(marshal, bindings, fields).value;
            Merged(Env(plan, trace[|trace| - 1].results), fields).data ==
            Reference.ExecuteSet(Reachable(world, providers), Federation.Bound(bindings), fields, "Query", Top)
  {
    var plan := PlanFor(marshal, bindings, fields).value;
    var s := trace[|trace| - 1];
    PlanServesEveryEntry(marshal, bindings, fields);
    ResultsAreTheOutcomes(plan.fetches, providers, trace, steps);
    forall f | f in plan.fetches
      ensures f.key in s.results && Answers(f, Reachable(world, providers), s.results[f.key])
    {
      var i :| 0 <= i < |plan.fetches| && plan.fetches[i] == f;
      if f.schemaId in providers {
        assert Respond(i, s.results[f.key]) in steps;
      }
    }
    FederationPreservesMeaning(marshal, bindings, fields, Reachable(world, providers), s.results);
  }
}
