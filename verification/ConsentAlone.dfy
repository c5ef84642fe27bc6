/** A call whose steps nobody interrupts does what the atomic call does: the interleaved engine and the atomic one are
    two views of one service. */
module ConsentAlone {
  import opened Wrappers
  import opened Consent
  import opened ConsentService
  import opened ConsentRaces

  /** How many steps a call can take at most from a point on. */
  function StepsLeft(point: Point): nat {
    match point
    case Begin => 8
    case Loaded(_, _) => 7
    case Expiring(_, _, _) => 6
    case Reloading(_, _, _) => 5
    case Writing(_, _, _) => 4
    case Saving(_, _, _) => 6
    case Replacing(_) => 5
    case Revoking(_, _) => 4
    case Rebuilding(_, _) => 3
    case Committing(_, _, _) => 2
    case Building => 2
    case Inserting(_) => 1
    case SweepingPending(_) => 2
    case SweepingApproved(_) => 1
    case Done(_) => 0
  }

  lemma GoEnds(table: Table, clock: int, t: Thread, pick: nat, newId: nat)
    requires Fits(t) && !t.point.Done?
    ensures var point := Go(table, clock, t, pick, newId).1;
            Fits(t.(point := point)) && StepsLeft(point) < StepsLeft(t.point)
  {
  }

  /** The table and the answer that all remaining steps of a call leave, taken one after the other. */
  function Alone(table: Table, clock: int, t: Thread, pick: nat, newId: nat):
    (Table, Result<Option<View>, ConsentError>)
    requires Fits(t)
    decreases StepsLeft(t.point)
  {
    if t.point.Done? then (table, t.point.result)
    else
      GoEnds(table, clock, t, pick, newId);
      var (table', point) := Go(table, clock, t, pick, newId);
      Alone(table', clock, t.(point := point), pick, newId)
  }

  lemma OneStep(table: Table, clock: int, t: Thread, pick: nat, newId: nat)
    requires Fits(t) && !t.point.Done?
    ensures var (table', point) := Go(table, clock, t, pick, newId);
            && Fits(t.(point := point))
            && Alone(table, clock, t, pick, newId) == Alone(table', clock, t.(point := point), pick, newId)
  {
    GoEnds(table, clock, t, pick, newId);
  }

  /** What the atomic call answers and leaves. */
  function Atomic(table: Table, clock: int, task: Task, pick: nat, newId: nat):
    (Table, Result<Option<View>, ConsentError>)
    requires Ready(table, Thread(task, Begin), pick, newId)
  {
    match task
    case Deciding(act) =>
      var (after, r) := Acted(table, act, clock);
      (after, if r.Ok? then Ok(None) else Err(r.error))
    case Showing(id, owner) =>
      if id !in table then (table, Err(NotFound))
      else if table[id].owner != owner then (table, Err(AccessDenied))
      else
        var after := Refreshed(table, id, clock);
        (after, Ok(Some(ViewOf(id, after[id]))))
    case Viewing(id) =>
      if id !in table then (table, Err(NotFound))
      else
        var after := Viewed(table, id, clock);
        (after, Ok(Some(ViewOf(id, after[id]))))
    case ViewingLatest(owner, app) =>
      if NoneFor(table, owner, app) then (table, Err(NotFound))
      else
        var after := Viewed(table, pick, clock);
        (after, Ok(Some(ViewOf(pick, after[pick]))))
    case Creating(req) =>
      if !ValidRequest(req) then (table, Err(CreateFailed))
      else
        var latest := if NoneFor(table, req.owner, req.app) then None else Some(pick);
        var (after, r) := CreatedFrom(table, req, latest, newId, clock);
        (after, if r.Ok? then Ok(Some(r.value)) else Err(r.error))
    case Sweeping(owner) => (Swept(table, owner, clock), Ok(None))
  }

  lemma DecisionAlone(table: Table, clock: int, act: Act, pick: nat, newId: nat)
    requires act.id in table && table[act.id].owner == act.owner
    ensures Alone(table, clock, Thread(Deciding(act), Loaded(act.id, table[act.id])), pick, newId) ==
            var (after, r) := Acted(table, act, clock); (after, if r.Ok? then Ok(None) else Err(r.error))
  {
    var task, id, row := Deciding(act), act.id, table[act.id];
    OneStep(table, clock, Thread(task, Loaded(id, row)), pick, newId);
    if Stale(row, clock) {
      OneStep(table, clock, Thread(task, Expiring(id, row, clock)), pick, newId);
    } else if row.status == act.action.From() {
      OneStep(table, clock, Thread(task, Writing(id, row, clock)), pick, newId);
    }
  }

  lemma ShowAlone(table: Table, clock: int, id: nat, owner: string, pick: nat, newId: nat)
    requires id in table && table[id].owner == owner
    ensures var after := Refreshed(table, id, clock);
            Alone(table, clock, Thread(Showing(id, owner), Loaded(id, table[id])), pick, newId) ==
            (after, Ok(Some(ViewOf(id, after[id]))))
  {
    OneStep(table, clock, Thread(Showing(id, owner), Loaded(id, table[id])), pick, newId);
    if Stale(table[id], clock) {
      OneStep(table, clock, Thread(Showing(id, owner), Expiring(id, table[id], clock)), pick, newId);
    }
  }

  /** Loading a record and reading the clock, for the orchestration engine. */
  lemma ViewAlone(table: Table, clock: int, task: Task, id: nat, pick: nat, newId: nat)
    requires id in table && (task.Viewing? || task.ViewingLatest? || task.Creating?)
    ensures var after := Viewed(table, id, clock);
            Alone(table, clock, Thread(task, Loaded(id, table[id])), pick, newId) ==
            Alone(after, clock, Thread(task, AfterView(task, id, after[id])), pick, newId)
  {
    OneStep(table, clock, Thread(task, Loaded(id, table[id])), pick, newId);
    if Stale(table[id], clock) {
      OneStep(table, clock, Thread(task, Saving(id, table[id], clock)), pick, newId);
    }
  }

  lemma ReplaceAlone(table: Table, clock: int, req: Request, id: nat, pick: nat, newId: nat)
    requires id in table && table[id].status.Active() && newId !in table
    ensures var inserted := Inserted(table[id := Replaced(table[id], clock)], newId, NewRow(req, clock));
            Alone(table, clock, Thread(Creating(req), Replacing(id)), pick, newId) ==
            if inserted.Ok? then (inserted.value, Ok(Some(ViewOf(newId, NewRow(req, clock)))))
            else (table, Err(CreateFailed))
  {
    var t := Thread(Creating(req), Replacing(id));
    var revoked := Replaced(table[id], clock);
    OneStep(table, clock, t, pick, newId);
    OneStep(table, clock, t.(point := Revoking(id, table[id])), pick, newId);
    OneStep(table, clock, t.(point := Rebuilding(id, revoked)), pick, newId);
    OneStep(table, clock, t.(point := Committing(id, revoked, NewRow(req, clock))), pick, newId);
  }

  lemma BuildAlone(table: Table, clock: int, req: Request, pick: nat, newId: nat)
    ensures var inserted := Inserted(table, newId, NewRow(req, clock));
            Alone(table, clock, Thread(Creating(req), Building), pick, newId) ==
            if inserted.Ok? then (inserted.value, Ok(Some(ViewOf(newId, NewRow(req, clock)))))
            else (table, Err(CreateFailed))
  {
    OneStep(table, clock, Thread(Creating(req), Building), pick, newId);
    OneStep(table, clock, Thread(Creating(req), Inserting(NewRow(req, clock))), pick, newId);
  }

  lemma CreateAlone(table: Table, clock: int, req: Request, pick: nat, newId: nat)
    requires Ready(table, Thread(Creating(req), Begin), pick, newId) && ValidRequest(req)
    ensures Alone(table, clock, Thread(Creating(req), Begin), pick, newId) ==
            Atomic(table, clock, Creating(req), pick, newId)
  {
    if NoneFor(table, req.owner, req.app) {
      BuildAlone(table, clock, req, pick, newId);
    } else {
      var after := Viewed(table, pick, clock);
      ViewAlone(table, clock, Creating(req), pick, pick, newId);
      if after[pick].status.Active() {
        ReplaceAlone(after, clock, req, pick, pick, newId);
      } else {
        BuildAlone(after, clock, req, pick, newId);
      }
    }
  }

  lemma SweepAlone(table: Table, clock: int, owner: string, pick: nat, newId: nat)
    ensures Alone(table, clock, Thread(Sweeping(owner), Begin), pick, newId) == (Swept(table, owner, clock), Ok(None))
  {
    var t := Thread(Sweeping(owner), Begin);
    SweptInTwo(table, owner, clock);
    OneStep(table, clock, t, pick, newId);
    OneStep(table, clock, t.(point := SweepingPending(clock)), pick, newId);
    OneStep(SweptIn(table, owner, Pending, clock), clock, t.(point := SweepingApproved(clock)), pick, newId);
  }

  /** A call that runs without interruption, while the clock stands still, leaves the table and gives the answer of the
      atomic call. */
  lemma AloneIsAtomic(table: Table, clock: int, task: Task, pick: nat, newId: nat)
    requires Ready(table, Thread(task, Begin), pick, newId)
    ensures Alone(table, clock, Thread(task, Begin), pick, newId) == Atomic(table, clock, task, pick, newId)
  {
    var t := Thread(task, Begin);
    OneStep(table, clock, t, pick, newId);
    match task {
      case Deciding(act) =>
        if act.id in table && table[act.id].owner != act.owner {
          OneStep(table, clock, t.(point := Loaded(act.id, table[act.id])), pick, newId);
        } else if act.id in table {
          DecisionAlone(table, clock, act, pick, newId);
        }
      case Showing(id, owner) =>
        if id in table && table[id].owner != owner {
          OneStep(table, clock, t.(point := Loaded(id, table[id])), pick, newId);
        } else if id in table {
          ShowAlone(table, clock, id, owner, pick, newId);
        }
      case Viewing(id) =>
        if id in table {
          ViewAlone(table, clock, task, id, pick, newId);
        }
      case ViewingLatest(owner, app) =>
        if !NoneFor(table, owner, app) {
          ViewAlone(table, clock, task, pick, pick, newId);
        }
      case Creating(req) =>
        if ValidRequest(req) {
          CreateAlone(table, clock, req, pick, newId);
        }
      case Sweeping(owner) =>
        SweepAlone(table, clock, owner, pick, newId);
    }
  }

  /** The steps from the `k`-th to the `n`-th are all steps of the `i`-th call. */
  predicate Uninterrupted(steps: seq<Step>, k: nat, n: nat, i: nat, pick: nat, newId: nat) {
    k <= n <= |steps| && forall j | k <= j < n :: steps[j] == Move(i, pick, newId)
  }

  /** So in a run: a call that takes all its steps in a row does what the atomic call does. */
  lemma {:induction false} UninterruptedIsAtomic(trace: seq<State>, steps: seq<Step>, k: nat, n: nat, i: nat, pick: nat,
                                                 newId: nat)
    requires ConsentRaces.Run(trace, steps) && Uninterrupted(steps, k, n, i, pick, newId)
    requires i in trace[k].threads && trace[k].threads[i].point.Begin?
    requires Ready(trace[k].table, trace[k].threads[i], pick, newId)
    requires i in trace[n].threads && trace[n].threads[i].point.Done?
    ensures (trace[n].table, trace[n].threads[i].point.result) ==
            Atomic(trace[k].table, trace[k].clock, trace[k].threads[i].task, pick, newId)
  {
    InARow(trace, steps, k, n, i, pick, newId);
    AloneIsAtomic(trace[k].table, trace[k].clock, trace[k].threads[i].task, pick, newId);
  }

  lemma {:induction false} InARow(trace: seq<State>, steps: seq<Step>, k: nat, n: nat, i: nat, pick: nat, newId: nat)
    requires ConsentRaces.Run(trace, steps) && Uninterrupted(steps, k, n, i, pick, newId)
    requires i in trace[k].threads && Fits(trace[k].threads[i])
    requires i in trace[n].threads && trace[n].threads[i].point.Done?
    ensures Alone(trace[k].table, trace[k].clock, trace[k].threads[i], pick, newId) ==
            (trace[n].table, trace[n].threads[i].point.result)
    decreases n - k
  {
    if k < n {
      assert steps[k] == Move(i, pick, newId);
      assert Enabled(trace[k], steps[k]) && trace[k + 1] == Next(trace[k], steps[k]);
      GoEnds(trace[k].table, trace[k].clock, trace[k].threads[i], pick, newId);
      InARow(trace, steps, k + 1, n, i, pick, newId);
    }
  }
}
