/** The consent engine's calls interleaved: every load, clock reading and write of every call is a step of its own. */
module ConsentRaces {
  import opened Wrappers
  import opened Consent
  import opened ConsentService

  datatype Task =
    | Deciding(act: Act)
    | Showing(id: nat, owner: string)
    | Viewing(id: nat)
    | ViewingLatest(owner: string, app: string)
    | Creating(req: Request)
    | Sweeping(owner: string)

  /** Where a call stands, with what it has loaded. */
  datatype Point =
    | Begin
    /** A record has been loaded; the clock is read next. */
    | Loaded(id: nat, row: Row)
    /** The loaded record is stale: expire it if it still is in the status it was loaded with. */
    | Expiring(id: nat, row: Row, now: int)
    | Reloading(id: nat, loaded: Status, now: int)
    /** The record may be decided on: write the decision if it still is in that status. */
    | Writing(id: nat, row: Row, now: int)
    /** The loaded record was stale at `now`: write it back whole, as expired. */
    | Saving(id: nat, row: Row, now: int)
    /** In a transaction: load the record to replace; read the clock; build its replacement; write both. */
    | Replacing(id: nat)
    | Revoking(id: nat, row: Row)
    | Rebuilding(id: nat, revoked: Row)
    | Committing(id: nat, revoked: Row, row: Row)
    | Building
    | Inserting(row: Row)
    | SweepingPending(now: int)
    | SweepingApproved(now: int)
    | Done(result: Result<Option<View>, ConsentError>)

  datatype Thread = Thread(task: Task, point: Point)

  datatype State = State(table: Table, clock: int, threads: map<nat, Thread>)

  // One step of one call

  /** After the expiry check: a portal read is done, a decision is refused or written. */
  function AfterExpiry(task: Task, id: nat, row: Row, now: int): Point {
    if !task.Deciding? then Done(Ok(Some(ViewOf(id, row))))
    else if row.status != task.act.action.From() then Done(Err(WrongStatus(task.act.action)))
    else Writing(id, row, now)
  }

  /** After reading for the orchestration engine: a read is done, a creation keeps, replaces or adds. */
  function AfterView(task: Task, id: nat, row: Row): Point {
    if !task.Creating? || (row.status.Active() && row.fields == task.req.fields) then Done(Ok(Some(ViewOf(id, row))))
    else if row.status.Active() then Replacing(id)
    else Building
  }

  /** The pair whose latest record a call begins with. */
  function PairOf(task: Task): Option<(string, string)> {
    match task
    case ViewingLatest(owner, app) => Some((owner, app))
    case Creating(req) => if ValidRequest(req) then Some((req.owner, req.app)) else None
    case _ => None
  }

  /** The points a call can reach. */
  predicate Fits(t: Thread) {
    match t.point
    case Expiring(_, _, _) => t.task.Deciding? || t.task.Showing?
    case Reloading(_, _, _) => t.task.Deciding? || t.task.Showing?
    case Writing(_, _, _) => t.task.Deciding?
    case Saving(_, _, _) => t.task.Viewing? || t.task.ViewingLatest? || t.task.Creating?
    case SweepingPending(_) => t.task.Sweeping?
    case SweepingApproved(_) => t.task.Sweeping?
    case Begin => true
    case Loaded(_, _) => !t.task.Sweeping?
    case Done(_) => true
    case _ => t.task.Creating?
  }

  /** `pick` is the record a query for the latest one returns, `newId` a new id. */
  predicate Ready(table: Table, t: Thread, pick: nat, newId: nat) {
    && !t.point.Done? && Fits(t)
    && newId !in table
    && (t.point.Begin? && PairOf(t.task).Some? && !NoneFor(table, PairOf(t.task).value.0, PairOf(t.task).value.1) ==>
          IsLatest(table, PairOf(t.task).value.0, PairOf(t.task).value.1, pick))
  }

  function Start(table: Table, clock: int, task: Task, pick: nat): Point {
    match task
    case Deciding(act) => if act.id in table then Loaded(act.id, table[act.id]) else Done(Err(NotFound))
    case Showing(id, _) => if id in table then Loaded(id, table[id]) else Done(Err(NotFound))
    case Viewing(id) => if id in table then Loaded(id, table[id]) else Done(Err(NotFound))
    case ViewingLatest(owner, app) => if pick in table && !NoneFor(table, owner, app) then Loaded(pick, table[pick])
                                      else Done(Err(NotFound))
    case Creating(req) =>
      if !ValidRequest(req) then Done(Err(CreateFailed))
      else if pick in table && !NoneFor(table, req.owner, req.app) then Loaded(pick, table[pick])
      else Building
    case Sweeping(_) => SweepingPending(clock)
  }

  function AfterLoad(clock: int, task: Task, id: nat, row: Row): Point {
    if task.Deciding? && row.owner != task.act.owner then Done(Err(AccessDenied))
    else if task.Showing? && row.owner != task.owner then Done(Err(AccessDenied))
    else if task.Deciding? || task.Showing? then
      if Stale(row, clock) then Expiring(id, row, clock) else AfterExpiry(task, id, row, clock)
    else if Stale(row, clock) then Saving(id, row, clock)
    else AfterView(task, id, row)
  }

  /** The table and the call's next point. */
  function Go(table: Table, clock: int, t: Thread, pick: nat, newId: nat): (Table, Point)
    requires Fits(t)
  {
    match t.point
    case Begin => (table, Start(table, clock, t.task, pick))
    case Loaded(id, row) => (table, AfterLoad(clock, t.task, id, row))
    case Expiring(id, row, now) =>
      if id in table && table[id].status == row.status
      then (table[id := PersistedExpired(table[id], now)], AfterExpiry(t.task, id, PersistedExpired(row, now), now))
      else (table, Reloading(id, row.status, now))
    case Reloading(id, _, now) =>
      (table, if id in table then AfterExpiry(t.task, id, table[id], now) else Done(Err(NotFound)))
    case Writing(id, row, now) =>
      var act := t.task.act;
      if id in table && table[id].owner == act.owner && table[id].status == act.action.From()
      then (table[id := Decided(table[id], act.action, act.updatedBy, row.grantDuration, now)], Done(Ok(None)))
      else (table, Done(Err(WrongStatus(act.action))))
    case Saving(id, row, _) => (table[id := MarkedExpired(row)], AfterView(t.task, id, MarkedExpired(row)))
    case Replacing(id) =>
      (table, if id in table && table[id].status.Active() then Revoking(id, table[id]) else Done(Err(CreateFailed)))
    case Revoking(id, row) => (table, Rebuilding(id, Replaced(row, clock)))
    case Rebuilding(id, revoked) => (table, Committing(id, revoked, NewRow(t.task.req, clock)))
    case Committing(id, revoked, row) =>
      var inserted := Inserted(table[id := revoked], newId, row);
      if inserted.Ok? then (inserted.value, Done(Ok(Some(ViewOf(newId, row))))) else (table, Done(Err(CreateFailed)))
    case Building => (table, Inserting(NewRow(t.task.req, clock)))
    case Inserting(row) =>
      var inserted := Inserted(table, newId, row);
      if inserted.Ok? then (inserted.value, Done(Ok(Some(ViewOf(newId, row))))) else (table, Done(Err(CreateFailed)))
    case SweepingPending(now) =>
      (SweptIn(table, t.task.owner, Pending, now), SweepingApproved(now))
    case SweepingApproved(now) =>
      (SweptIn(table, t.task.owner, Approved, now), Done(Ok(None)))
    case Done(_) => (table, t.point)
  }

  // Runs

  datatype Step = Tick(clock: int) | Spawn(i: nat, task: Task) | Move(i: nat, pick: nat, newId: nat)

  predicate Enabled(s: State, step: Step) {
    match step
    case Tick(clock) => s.clock <= clock
    case Spawn(i, _) => i !in s.threads
    case Move(i, pick, newId) => i in s.threads && Ready(s.table, s.threads[i], pick, newId)
  }

  function Next(s: State, step: Step): State
    requires Enabled(s, step)
  {
    match step
    case Tick(clock) => s.(clock := clock)
    case Spawn(i, task) => s.(threads := s.threads[i := Thread(task, Begin)])
    case Move(i, pick, newId) =>
      var (table, point) := Go(s.table, s.clock, s.threads[i], pick, newId);
      s.(table := table, threads := s.threads[i := s.threads[i].(point := point)])
  }

  const EMPTY: State := State(map[], 0, map[])

  ghost predicate Run(trace: seq<State>, steps: seq<Step>) {
    RunFrom(EMPTY, trace, steps)
  }

  ghost predicate RunFrom(start: State, trace: seq<State>, steps: seq<Step>) {
    && |trace| == |steps| + 1 && trace[0] == start
    && forall i | 0 <= i < |steps| :: Enabled(trace[i], steps[i]) && trace[i + 1] == Next(trace[i], steps[i])
  }

  // What no step undoes

  predicate SameRequest(a: Row, b: Row) {
    && a.owner == b.owner && a.app == b.app && a.kind == b.kind && a.createdAt == b.createdAt
    && a.grantDuration == b.grantDuration && a.fields == b.fields
  }

  /** A record only moves up the ranks, and is untouched while it stays pending or approved. */
  predicate RowEvolves(a: Row, b: Row) {
    && SameRequest(a, b)
    && a.status.Rank() <= b.status.Rank()
    && (a.status.Active() && a.status == b.status ==> a == b)
  }

  predicate Evolves(a: Table, b: Table) {
    forall id | id in a :: id in b && RowEvolves(a[id], b[id])
  }

  // The invariant

  /** A pending record carries its deadline; an approved one was decided before that deadline and runs from its decision
      for its duration. */
  predicate InTime(row: Row) {
    && (row.status.Pending? ==> row.pendingExpiresAt == Some(row.createdAt + PendingSeconds(row.kind)))
    && (row.status.Approved? ==>
          && row.updatedAt <= row.createdAt + PendingSeconds(row.kind)
          && row.grantExpiresAt == Some(row.updatedAt + GrantSeconds(row.grantDuration)))
  }

  /** What is loaded was in the table, and the table has only moved on. */
  predicate Snapshot(table: Table, id: nat, row: Row) {
    id in table && RowEvolves(row, table[id]) && InTime(row)
  }

  predicate PointHolds(table: Table, t: Thread) {
    Fits(t) &&
    match t.point
    case Loaded(id, row) => Snapshot(table, id, row) && (t.task.Deciding? ==> id == t.task.act.id)
    case Expiring(id, row, now) =>
      Snapshot(table, id, row) && Stale(row, now) && (t.task.Deciding? ==> id == t.task.act.id)
    case Reloading(id, loaded, _) =>
      && id in table && loaded.Active() && loaded.Rank() < table[id].status.Rank()
      && (t.task.Deciding? ==> id == t.task.act.id)
    case Writing(id, row, now) =>
      && id == t.task.act.id && Snapshot(table, id, row) && row.status == t.task.act.action.From()
      && (row.status.Pending? ==> now <= row.createdAt + PendingSeconds(row.kind))
    case Saving(id, row, now) => Snapshot(table, id, row) && Stale(row, now)
    case Revoking(id, row) => Snapshot(table, id, row)
    case Rebuilding(id, revoked) => id in table && SameRequest(revoked, table[id]) && revoked.status == Revoked
    case Committing(id, revoked, row) =>
      id in table && SameRequest(revoked, table[id]) && revoked.status == Revoked && row.status.Pending? && InTime(row)
    case Inserting(row) => row.status.Pending? && InTime(row)
    case _ => true
  }

  /** A decision that was accepted has moved the record past the status it decided on. */
  predicate Won(t: Thread) {
    t.task.Deciding? && t.point.Done? && t.point.result.Ok?
  }

  predicate WinHolds(table: Table, t: Thread) {
    Won(t) ==> t.task.act.id in table && t.task.act.action.From().Rank() < table[t.task.act.id].status.Rank()
  }

  predicate AllInTime(table: Table) {
    forall id | id in table :: InTime(table[id])
  }

  predicate ThreadsHold(table: Table, threads: map<nat, Thread>) {
    forall i | i in threads :: PointHolds(table, threads[i]) && WinHolds(table, threads[i])
  }

  predicate NoRivalsWon(threads: map<nat, Thread>) {
    forall i, j | i in threads && j in threads && i != j && Won(threads[i]) && Won(threads[j]) ::
      !Rivals(threads[i].task.act, threads[j].task.act)
  }

  predicate Invariant(s: State) {
    AllInTime(s.table) && IndexHolds(s.table) && ThreadsHold(s.table, s.threads) && NoRivalsWon(s.threads)
  }

  /** Both actions decide on the same status of the same record. */
  predicate Rivals(a: Act, b: Act) {
    a.id == b.id && a.action.From() == b.action.From()
  }

  /** What a step may do to the table. */
  predicate GoodChange(a: Table, b: Table) {
    Evolves(a, b) && AllInTime(b) && IndexHolds(b)
  }

  lemma WriteIsGood(a: Table, id: nat, row: Row)
    requires id in a && AllInTime(a) && IndexHolds(a) && RowEvolves(a[id], row) && InTime(row)
    requires row.status.Active() ==> a[id].status.Active()
    ensures GoodChange(a, a[id := row])
  {
    var b := a[id := row];
    forall x | x in a ensures RowEvolves(a[x], b[x]) {
    }
    forall x, y | x in b && y in b && x != y && Same(b[x], b[y].owner, b[y].app)
      ensures !(b[x].status.Active() && b[y].status.Active())
    {
      assert Same(a[x], a[y].owner, a[y].app);
    }
  }

  lemma SweepIsGood(a: Table, owner: string, status: Status, now: int)
    requires AllInTime(a) && IndexHolds(a) && status.Active()
    ensures GoodChange(a, SweptIn(a, owner, status, now))
  {
    var b := SweptIn(a, owner, status, now);
    forall id | id in a
      ensures RowEvolves(a[id], b[id]) && InTime(b[id]) && (b[id] == a[id] || b[id].status == Expired)
    {
      assert b[id] == SweptRow(a[id], owner, status, now);
      assert InTime(a[id]);
    }
    forall x, y | x in b && y in b && x != y && Same(b[x], b[y].owner, b[y].app)
      ensures !(b[x].status.Active() && b[y].status.Active())
    {
      assert RowEvolves(a[x], b[x]) && RowEvolves(a[y], b[y]);
    }
  }

  lemma InsertIsGood(a: Table, id: nat, row: Row)
    requires id !in a && AllInTime(a) && IndexHolds(a) && InTime(row) && NoActive(a, row.owner, row.app)
    ensures GoodChange(a, a[id := row])
  {
  }

  /** One step of a call changes the table only in ways no other call has to fear. */
  lemma GoIsGood(table: Table, clock: int, t: Thread, pick: nat, newId: nat)
    requires AllInTime(table) && IndexHolds(table) && PointHolds(table, t) && Ready(table, t, pick, newId)
    ensures GoodChange(table, Go(table, clock, t, pick, newId).0)
  {
    match t.point {
      case Expiring(id, row, now) =>
        if table[id].status == row.status {
          WriteIsGood(table, id, PersistedExpired(table[id], now));
        }
      case Writing(id, row, now) =>
        if table[id].owner == t.task.act.owner && table[id].status == t.task.act.action.From() {
          WriteIsGood(table, id, Decided(table[id], t.task.act.action, t.task.act.updatedBy, row.grantDuration, now));
        }
      case Saving(id, row, _) =>
        WriteIsGood(table, id, MarkedExpired(row));
      case Committing(id, revoked, row) =>
        WriteIsGood(table, id, revoked);
        var freed := table[id := revoked];
        if NoActive(freed, row.owner, row.app) {
          InsertIsGood(freed, newId, row);
        }
      case Inserting(row) =>
        if NoActive(table, row.owner, row.app) {
          InsertIsGood(table, newId, row);
        }
      case SweepingPending(now) =>
        SweepIsGood(table, t.task.owner, Pending, now);
      case SweepingApproved(now) =>
        SweepIsGood(table, t.task.owner, Approved, now);
      case _ =>
    }
  }

  lemma LoadedKeepsPoint(table: Table, clock: int, t: Thread)
    requires t.point.Loaded? && PointHolds(table, t)
    ensures PointHolds(table, t.(point := AfterLoad(clock, t.task, t.point.id, t.point.row)))
  {
  }

  lemma StartKeepsPoint(table: Table, clock: int, task: Task, pick: nat)
    requires AllInTime(table)
    ensures PointHolds(table, Thread(task, Start(table, clock, task, pick)))
  {
  }

  lemma AfterViewHolds(table: Table, task: Task, id: nat, row: Row)
    requires id in table && (task.Viewing? || task.ViewingLatest? || task.Creating?)
    ensures PointHolds(table, Thread(task, AfterView(task, id, row)))
  {
  }

  /** The call's next point fits the table it leaves. */
  lemma GoKeepsPoint(table: Table, clock: int, t: Thread, pick: nat, newId: nat)
    requires AllInTime(table) && PointHolds(table, t) && Ready(table, t, pick, newId)
    ensures var (table', point) := Go(table, clock, t, pick, newId);
            PointHolds(table', t.(point := point))
  {
    match t.point {
      case Begin => StartKeepsPoint(table, clock, t.task, pick);
      case Loaded(_, _) => LoadedKeepsPoint(table, clock, t);
      case Saving(id, row, _) => AfterViewHolds(table[id := MarkedExpired(row)], t.task, id, MarkedExpired(row));
      case _ =>
    }
  }

  lemma GoWins(table: Table, clock: int, t: Thread, pick: nat, newId: nat)
    requires PointHolds(table, t) && Ready(table, t, pick, newId)
    ensures var (table', point) := Go(table, clock, t, pick, newId);
            Won(t.(point := point)) ==>
              && t.point.Writing? && t.task.act.id in table
              && table[t.task.act.id].status == t.task.act.action.From()
              && table'[t.task.act.id].status == t.task.act.action.To()
  {
  }

  lemma OthersHold(a: Table, b: Table, threads: map<nat, Thread>, i: nat, t: Thread)
    requires Evolves(a, b) && ThreadsHold(a, threads) && PointHolds(b, t) && WinHolds(b, t)
    ensures ThreadsHold(b, threads[i := t])
  {
    forall j | j in threads && j != i ensures PointHolds(b, threads[j]) && WinHolds(b, threads[j]) {
    }
  }

  lemma OneMoreWin(table: Table, threads: map<nat, Thread>, i: nat, t: Thread)
    requires ThreadsHold(table, threads) && NoRivalsWon(threads)
    requires Won(t) ==> t.task.act.id in table && table[t.task.act.id].status == t.task.act.action.From()
    ensures NoRivalsWon(threads[i := t])
  {
    forall j | j in threads && j != i && Won(threads[j]) && Won(t) ensures !Rivals(threads[j].task.act, t.task.act) {
      assert WinHolds(table, threads[j]);
    }
  }

  lemma MoveKeepsInvariant(s: State, i: nat, pick: nat, newId: nat)
    requires Invariant(s) && Enabled(s, Move(i, pick, newId))
    ensures Invariant(Next(s, Move(i, pick, newId))) && Evolves(s.table, Next(s, Move(i, pick, newId)).table)
  {
    var t, next := s.threads[i], Next(s, Move(i, pick, newId));
    assert PointHolds(s.table, t);
    GoIsGood(s.table, s.clock, t, pick, newId);
    GoKeepsPoint(s.table, s.clock, t, pick, newId);
    GoWins(s.table, s.clock, t, pick, newId);
    OthersHold(s.table, next.table, s.threads, i, next.threads[i]);
    OneMoreWin(s.table, s.threads, i, next.threads[i]);
  }

  lemma StepKeepsInvariant(s: State, step: Step)
    requires Invariant(s) && Enabled(s, step)
    ensures Invariant(Next(s, step)) && Evolves(s.table, Next(s, step).table)
  {
    if step.Move? {
      MoveKeepsInvariant(s, step.i, step.pick, step.newId);
    }
  }

  lemma {:induction false} RunsKeepInvariant(trace: seq<State>, steps: seq<Step>, i: nat)
    requires Run(trace, steps) && i < |trace|
    ensures Invariant(trace[i])
  {
    if i > 0 {
      RunsKeepInvariant(trace, steps, i - 1);
      assert Enabled(trace[i - 1], steps[i - 1]) && trace[i] == Next(trace[i - 1], steps[i - 1]);
      StepKeepsInvariant(trace[i - 1], steps[i - 1]);
    }
  }

  // Safety over every interleaving of all calls

  lemma {:induction false} TablesEvolve(trace: seq<State>, steps: seq<Step>, i: nat, j: nat)
    requires Run(trace, steps) && i <= j < |trace|
    ensures Evolves(trace[i].table, trace[j].table)
    decreases j
  {
    if i < j {
      TablesEvolve(trace, steps, i, j - 1);
      RunsKeepInvariant(trace, steps, j - 1);
      assert Enabled(trace[j - 1], steps[j - 1]) && trace[j] == Next(trace[j - 1], steps[j - 1]);
      StepKeepsInvariant(trace[j - 1], steps[j - 1]);
    }
  }

  /** No consent is resurrected: in every interleaving of every kind of call a record only moves from pending to
      approved to an end, and keeps its owner, application, creation time, duration and fields. */
  lemma NoConsentIsResurrected(trace: seq<State>, steps: seq<Step>, i: nat, j: nat)
    requires Run(trace, steps) && i <= j < |trace|
    ensures Evolves(trace[i].table, trace[j].table)
    ensures forall id | id in trace[i].table ::
              id in trace[j].table && NotResurrected(trace[i].table[id], trace[j].table[id])
  {
    TablesEvolve(trace, steps, i, j);
    forall id | id in trace[i].table ensures NotResurrected(trace[i].table[id], trace[j].table[id]) {
      assert RowEvolves(trace[i].table[id], trace[j].table[id]);
    }
  }

  /** Ended stays ended, and approved does not become pending again. */
  predicate NotResurrected(earlier: Row, later: Row) {
    && (earlier.status in {Rejected, Expired, Revoked} ==> later.status in {Rejected, Expired, Revoked})
    && (earlier.status == Approved ==> later.status != Pending)
    && later.owner == earlier.owner && later.app == earlier.app && later.createdAt == earlier.createdAt
    && later.fields == earlier.fields && later.grantDuration == earlier.grantDuration
  }

  /** The step after `i` takes the record out of `status`. */
  predicate Leaves(trace: seq<State>, i: nat, id: nat, status: Status)
    requires i + 1 < |trace|
  {
    && id in trace[i].table && trace[i].table[id].status == status
    && (id in trace[i + 1].table ==> trace[i + 1].table[id].status != status)
  }

  /** At most one step of a run takes a record out of pending, and at most one out of approved. */
  lemma OneTransitionLeaves(trace: seq<State>, steps: seq<Step>, id: nat, status: Status, i: nat, j: nat)
    requires Run(trace, steps) && status.Active() && i + 1 < |trace| && j + 1 < |trace|
    requires Leaves(trace, i, id, status) && Leaves(trace, j, id, status)
    ensures i == j
  {
    if i < j {
      LeftForGood(trace, steps, id, status, i, j);
    } else if j < i {
      LeftForGood(trace, steps, id, status, j, i);
    }
  }

  lemma LeftForGood(trace: seq<State>, steps: seq<Step>, id: nat, status: Status, i: nat, j: nat)
    requires Run(trace, steps) && status.Active() && i < j && i + 1 < |trace| && j < |trace|
    requires Leaves(trace, i, id, status)
    ensures id in trace[j].table && trace[j].table[id].status != status
  {
    NoConsentIsResurrected(trace, steps, i, i + 1);
    NoConsentIsResurrected(trace, steps, i + 1, j);
    assert RowEvolves(trace[i].table[id], trace[i + 1].table[id]);
    assert RowEvolves(trace[i + 1].table[id], trace[j].table[id]);
  }

  /** Exactly one decision wins: of all calls that decide on the same status of a record at most one succeeds. */
  lemma OneDecisionWins(trace: seq<State>, steps: seq<Step>, k: nat, i: nat, j: nat)
    requires Run(trace, steps) && k < |trace| && i in trace[k].threads && j in trace[k].threads
    requires Won(trace[k].threads[i]) && Won(trace[k].threads[j])
    requires Rivals(trace[k].threads[i].task.act, trace[k].threads[j].task.act)
    ensures i == j
  {
    RunsKeepInvariant(trace, steps, k);
  }

  /** What a portal call does to the table in one step: nothing, except that it expires a record past its deadline, or
      that it decides on a record in the status it decides on and succeeds. A read that found the record stale shows it
      as it now is in the table. In particular the step in which a call fails
      leaves every record as it is, and it fails with the error for a wrong status once the record was found and the
      owner checked. */
  lemma PortalCallsAreConditional(s: State, i: nat, pick: nat, newId: nat)
    requires Invariant(s) && Enabled(s, Move(i, pick, newId))
    requires s.threads[i].task.Deciding? || s.threads[i].task.Showing?
    ensures var t, next := s.threads[i], Next(s, Move(i, pick, newId));
            var point := next.threads[i].point;
            && (next.table != s.table ==>
                  && t.point.id in s.table
                  && if t.point.Expiring? then
                       && s.table[t.point.id].status.Active() && StatusAt(s.table[t.point.id], t.point.now) == Expired
                       && next.table ==
                          s.table[t.point.id := s.table[t.point.id].(status := Expired, updatedAt := t.point.now)]
                     else
                       && t.point.Writing? && Won(next.threads[i])
                       && s.table[t.point.id].status == t.task.act.action.From()
                       && s.table[t.point.id].owner == t.task.act.owner
                       && next.table == s.table[t.point.id := next.table[t.point.id]]
                       && next.table[t.point.id].status == t.task.act.action.To())
            && ((t.point.Expiring? || t.point.Reloading?) && point.Done? && point.result.Ok? ==>
                  t.point.id in next.table && point.result.value == Some(ViewOf(t.point.id, next.table[t.point.id])))
            && (point.Done? && point.result.Err? ==>
                  && (t.point.Expiring? || next.table == s.table)
                  && (!t.point.Begin? && !t.point.Loaded? ==> point.result.error == WrongStatus(t.task.act.action)))
  {
    assert PointHolds(s.table, s.threads[i]);
    if s.threads[i].point.Expiring? {
      assert RowEvolves(s.threads[i].point.row, s.table[s.threads[i].point.id]);
    }
  }

  /** Approval arithmetic: every approved record was decided no later than its creation plus its pending timeout, and
      its grant ends exactly its duration after the decision, so within a day and thirty days of its creation. */
  lemma ApprovedInTime(trace: seq<State>, steps: seq<Step>, k: nat, id: nat)
    requires Run(trace, steps) && k < |trace| && id in trace[k].table && trace[k].table[id].status == Approved
    ensures var row := trace[k].table[id];
            && row.updatedAt <= row.createdAt + PendingSeconds(row.kind)
            && row.grantExpiresAt == Some(row.updatedAt + GrantSeconds(row.grantDuration))
            && row.updatedAt <= row.createdAt + (if row.kind == "offline" then 24 * 60 * 60 else 60 * 60)
            && row.grantExpiresAt.value <= row.createdAt + 31 * 24 * 60 * 60
  {
    RunsKeepInvariant(trace, steps, k);
    assert InTime(trace[k].table[id]);
  }

  /** At every moment of every interleaving each pair has at most one active record: the index refuses the rest. */
  lemma AlwaysOneActive(trace: seq<State>, steps: seq<Step>, k: nat)
    requires Run(trace, steps) && k < |trace|
    ensures var table := trace[k].table;
            forall a, b | a in table && b in table && table[a].owner == table[b].owner && table[a].app == table[b].app
                          && table[a].status in {Pending, Approved} && table[b].status in {Pending, Approved} ::
              a == b
  {
    RunsKeepInvariant(trace, steps, k);
    assert IndexHolds(trace[k].table);
  }

  /** A record that has ended is only ever written by a whole-row write: by a read for the orchestration engine or by a
      replacement. */
  lemma EndedRecordsAreKept(s: State, i: nat, pick: nat, newId: nat, id: nat)
    requires Invariant(s) && Enabled(s, Move(i, pick, newId))
    requires id in s.table && !s.table[id].status.Active()
    ensures var next := Next(s, Move(i, pick, newId));
            id in next.table &&
            (next.table[id] != s.table[id] ==>
               (s.threads[i].point.Saving? || s.threads[i].point.Committing?) && s.threads[i].point.id == id)
  {
    assert PointHolds(s.table, s.threads[i]);
  }

  /** No call is ever stuck: one that has not ended can take its next step, whatever the others have left. */
  lemma CallsCanMove(trace: seq<State>, steps: seq<Step>, k: nat, i: nat, newId: nat) returns (pick: nat)
    requires Run(trace, steps) && k < |trace| && newId !in trace[k].table
    requires i in trace[k].threads && !trace[k].threads[i].point.Done?
    ensures Enabled(trace[k], Move(i, pick, newId))
  {
    RunsKeepInvariant(trace, steps, k);
    var table, t := trace[k].table, trace[k].threads[i];
    assert PointHolds(table, t);
    pick := 0;
    var pair := PairOf(t.task);
    if pair.Some? && !NoneFor(table, pair.value.0, pair.value.1) {
      LatestExists(table, pair.value.0, pair.value.1);
      pick := LatestOf(table, pair.value.0, pair.value.1).value;
    }
  }
}
