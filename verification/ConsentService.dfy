/** The consent engine's calls, each taken as one step, and what every run of them keeps. */
module ConsentService {
  import opened Wrappers
  import opened Consent

  // What each call does to the table

  predicate IsLatest(table: Table, owner: string, app: string, id: nat) {
    && id in table && Same(table[id], owner, app)
    && forall other | other in table && Same(table[other], owner, app) :: table[other].createdAt <= table[id].createdAt
  }

  predicate NoneFor(table: Table, owner: string, app: string) {
    forall id | id in table :: !Same(table[id], owner, app)
  }

  /** The record with the latest creation time for a pair, if there is one. */
  ghost function LatestOf(table: Table, owner: string, app: string): Option<nat> {
    if exists id :: IsLatest(table, owner, app, id) then
      var id :| IsLatest(table, owner, app, id); Some(id)
    else None
  }

  /** The table after a record has been read for the orchestration engine: expired if stale, by a whole-row write. */
  function Viewed(table: Table, id: nat, now: int): Table
    requires id in table
  {
    if Stale(table[id], now) then table[id := MarkedExpired(table[id])] else table
  }

  /** The table after a record has been read for its owner or before a decision. */
  function Refreshed(table: Table, id: nat, now: int): Table
    requires id in table
  {
    if Stale(table[id], now) then table[id := PersistedExpired(table[id], now)] else table
  }

  /** The table after every stale record of an owner has been expired. */
  function Swept(table: Table, owner: string, now: int): Table {
    map id | id in table :: if table[id].owner == owner && Stale(table[id], now)
                            then PersistedExpired(table[id], now) else table[id]
  }

  /** One bulk update: the owner's stale records in one status. */
  function SweptIn(table: Table, owner: string, status: Status, now: int): Table {
    map id | id in table :: SweptRow(table[id], owner, status, now)
  }

  function SweptRow(row: Row, owner: string, status: Status, now: int): Row {
    if row.owner == owner && row.status == status && Stale(row, now) then PersistedExpired(row, now) else row
  }

  lemma SweptInTwo(table: Table, owner: string, now: int)
    ensures SweptIn(SweptIn(table, owner, Pending, now), owner, Approved, now) == Swept(table, owner, now)
  {
    forall id | id in table
      ensures SweptRow(SweptRow(table[id], owner, Pending, now), owner, Approved, now) == Swept(table, owner, now)[id]
    {
    }
  }

  datatype Act = Act(id: nat, owner: string, action: Action, updatedBy: string)

  function Acted(table: Table, act: Act, now: int): (Table, Result<(), ConsentError>) {
    if act.id !in table then (table, Err(NotFound))
    else if table[act.id].owner != act.owner then (table, Err(AccessDenied))
    else
      var fresher := Refreshed(table, act.id, now);
      var row := fresher[act.id];
      if row.status != act.action.From() then (fresher, Err(WrongStatus(act.action)))
      else (fresher[act.id := Decided(row, act.action, act.updatedBy, row.grantDuration, now)], Ok(()))
  }

  /** Inserting a pending record, refused by the partial unique index when the pair already has an active one. */
  function Inserted(table: Table, id: nat, row: Row): Result<Table, ConsentError> {
    if NoActive(table, row.owner, row.app) then Ok(table[id := row]) else Err(CreateFailed)
  }

  /** What a query for the pair's latest record may return. */
  predicate Latest(table: Table, owner: string, app: string, latest: Option<nat>) {
    match latest
    case None => NoneFor(table, owner, app)
    case Some(id) => IsLatest(table, owner, app, id)
  }

  /** The table once the pair's latest record is read and, if active, revoked. */
  function Freed(table: Table, id: nat, now: int): Table
    requires id in table
  {
    var read := Viewed(table, id, now);
    if read[id].status.Active() then read[id := Replaced(read[id], now)] else read
  }

  /** Creating a record, given the pair's latest one: if that is active and for the same fields it is kept, if it is
      active for other fields it is revoked in favour of the new one. */
  function CreatedFrom(table: Table, req: Request, latest: Option<nat>, newId: nat, now: int):
    (Table, Result<View, ConsentError>)
    requires Latest(table, req.owner, req.app, latest)
  {
    if !ValidRequest(req) then (table, Err(CreateFailed))
    else
      var read := if latest.Some? then Viewed(table, latest.value, now) else table;
      if latest.Some? && read[latest.value].status.Active() && read[latest.value].fields == req.fields
      then (read, Ok(ViewOf(latest.value, read[latest.value])))
      else
        var freed := if latest.Some? then Freed(table, latest.value, now) else table;
        match Inserted(freed, newId, NewRow(req, now))
        case Err(error) => (read, Err(error))
        case Ok(table') => (table', Ok(ViewOf(newId, NewRow(req, now))))
  }

  ghost function Created(table: Table, req: Request, newId: nat, now: int): (Table, Result<View, ConsentError>) {
    LatestExists(table, req.owner, req.app);
    CreatedFrom(table, req, LatestOf(table, req.owner, req.app), newId, now)
  }

  /** The record is an approved, unexpired consent of the request's owner, for its application and exactly its
      fields. */
  predicate ConsentHeld(table: Table, id: nat, req: Request, now: int) {
    && id in table && table[id].owner == req.owner && table[id].app == req.app && table[id].fields == req.fields
    && table[id].status == Approved && (table[id].grantExpiresAt.Some? ==> now <= table[id].grantExpiresAt.value)
  }

  /** Whatever the table, a creation is answered "approved" exactly when the pair's latest record is such a consent, and
      then it changes nothing. */
  lemma ApprovedIffLatestHeld(table: Table, req: Request, latest: Option<nat>, newId: nat, now: int)
    requires Latest(table, req.owner, req.app, latest)
    ensures var (after, r) := CreatedFrom(table, req, latest, newId, now);
            && (r.Ok? && r.value.status == Approved <==>
                ValidRequest(req) && latest.Some? && ConsentHeld(table, latest.value, req, now))
            && (r.Ok? && r.value.status == Approved ==> after == table && latest == Some(r.value.id))
  {
  }

  /** Neither deadline of the record has passed. */
  predicate InForce(row: Row, now: int) {
    && (row.status == Pending && row.pendingExpiresAt.Some? ==> now <= row.pendingExpiresAt.value)
    && (row.status == Approved && row.grantExpiresAt.Some? ==> now <= row.grantExpiresAt.value)
  }

  /** The record is pending for an hour, or for a day if it is an offline one, and asks for a grant of the requested
      duration, or of an hour if none is given. */
  predicate AsRequested(row: Row, req: Request, now: int) {
    && row.owner == req.owner && row.app == req.app && row.fields == req.fields
    && row.status == Pending && row.createdAt == now && row.updatedAt == now && row.updatedBy == None
    && row.kind == (match req.kind case Some(kind) => kind case None => "realtime")
    && row.pendingExpiresAt == Some(now + if row.kind == "offline" then 24 * 60 * 60 else 60 * 60)
    && row.grantExpiresAt == None
    && (if req.grantDuration.Some? && |req.grantDuration.value| > 0
        then Some(row.grantDuration) == req.grantDuration else row.grantDuration == "PT1H")
  }

  /** A pair's latest record ends when a new one is created: it is revoked unless its deadline had passed before. */
  predicate SupersededIfLatest(before: Row, after: Row, latest: bool, now: int) {
    after ==
      if !latest || before.status !in {Pending, Approved} then before
      else if StatusAt(before, now) == Expired then before.(status := Expired)
      else before.(status := Revoked, updatedAt := now,
                   updatedBy := Some("System: revoked due to new consent with different fields"))
  }

  /** Creation on the columns, whatever the table: it answers with an active record of the owner and application for
      exactly the requested fields. That is the latest record, unchanged and with its deadline still to come; or a new
      one as requested, which takes the place of the latest record while nothing else changes. */
  lemma CreationOnColumns(table: Table, req: Request, latest: Option<nat>, newId: nat, now: int)
    requires Latest(table, req.owner, req.app, latest) && newId !in table
    ensures var (after, r) := CreatedFrom(table, req, latest, newId, now);
            && (Malformed(req) ==> r == Err(CreateFailed) && after == table)
            && (r.Ok? ==>
                  && r.value.id in after && Answers(after[r.value.id], req, r.value)
                  && (r.value.id != newId ==>
                        after == table && latest == Some(r.value.id) && InForce(table[r.value.id], now))
                  && (r.value.id == newId ==>
                        && AsRequested(after[newId], req, now) && after.Keys == table.Keys + {newId}
                        && forall id | id in table ::
                             SupersededIfLatest(table[id], after[id], latest == Some(id), now)))
  {
    ValidIffWellFormed(req);
  }

  /** The record belongs to the request's owner and application, is active and for exactly the requested fields, and is
      shown as it is. */
  predicate Answers(row: Row, req: Request, view: View) {
    && row.owner == req.owner && row.app == req.app && row.fields == req.fields
    && view.status == row.status && view.fields == Some(row.fields) && row.status in {Pending, Approved}
  }

  // The invariant

  /** Records of one pair were created at different times. */
  predicate TimesDistinct(table: Table) {
    forall a, b | a in table && b in table && a != b && Same(table[a], table[b].owner, table[b].app) ::
      table[a].createdAt != table[b].createdAt
  }

  /** An active record is the latest of its pair. */
  predicate ActiveIsLatest(table: Table) {
    forall a | a in table && table[a].status.Active() :: IsLatest(table, table[a].owner, table[a].app, a)
  }

  predicate Sound(table: Table) {
    TimesDistinct(table) && ActiveIsLatest(table)
  }

  /** Rows keep their pair and creation time, and no row becomes active. */
  predicate OnlyAges(table: Table, later: Table) {
    && later.Keys == table.Keys
    && forall id | id in table ::
         && Same(later[id], table[id].owner, table[id].app) && later[id].createdAt == table[id].createdAt
         && (later[id].status.Active() ==> table[id].status.Active())
  }

  lemma RowAges(table: Table, id: nat, row: Row)
    requires id in table && Same(row, table[id].owner, table[id].app) && row.createdAt == table[id].createdAt
    requires row.status.Active() ==> table[id].status.Active()
    ensures OnlyAges(table, table[id := row])
  {
  }

  lemma AgeingKeepsSound(table: Table, later: Table)
    requires Sound(table) && OnlyAges(table, later)
    ensures Sound(later)
  {
    forall a | a in later && later[a].status.Active() ensures IsLatest(later, later[a].owner, later[a].app, a) {
      assert IsLatest(table, table[a].owner, table[a].app, a);
    }
  }

  /** Each pair has at most one active record, and reading the latest record finds it. */
  lemma AtMostOneActive(table: Table, owner: string, app: string)
    requires Sound(table)
    ensures IndexHolds(table)
    ensures NoneFor(table, owner, app) <==> LatestOf(table, owner, app) == None
    ensures forall id | id in table && Same(table[id], owner, app) && table[id].status.Active() ::
              LatestOf(table, owner, app) == Some(id)
  {
    forall a, b | a in table && b in table && Same(table[a], table[b].owner, table[b].app)
                  && table[a].status.Active() && table[b].status.Active()
      ensures a == b
    {
      assert IsLatest(table, table[b].owner, table[b].app, b);
      LatestIsActive(table, table[b].owner, table[b].app, b, a);
    }
    LatestExists(table, owner, app);
    forall id | id in table && Same(table[id], owner, app) && table[id].status.Active()
      ensures LatestOf(table, owner, app) == Some(id)
    {
      var found := LatestOf(table, owner, app).value;
      LatestIsActive(table, owner, app, found, id);
    }
  }

  lemma LatestIsActive(table: Table, owner: string, app: string, latest: nat, id: nat)
    requires Sound(table) && IsLatest(table, owner, app, latest)
    requires id in table && Same(table[id], owner, app) && table[id].status.Active()
    ensures id == latest
  {
    assert IsLatest(table, table[id].owner, table[id].app, id);
    assert Same(table[latest], table[id].owner, table[id].app);
  }

  lemma LatestExists(table: Table, owner: string, app: string)
    ensures NoneFor(table, owner, app) <==> LatestOf(table, owner, app) == None
  {
    if !NoneFor(table, owner, app) {
      var ids := set id | id in table && Same(table[id], owner, app);
      var some :| some in table && Same(table[some], owner, app);
      assert some in ids;
      var id := LatestIn(table, ids);
      assert IsLatest(table, owner, app, id);
    }
  }

  lemma {:induction false} LatestIn(table: Table, ids: set<nat>) returns (latest: nat)
    requires ids != {} && forall id | id in ids :: id in table
    ensures latest in ids && forall id | id in ids :: table[id].createdAt <= table[latest].createdAt
    decreases |ids|
  {
    latest :| latest in ids;
    if ids != {latest} {
      var rest := ids - {latest};
      assert rest != {} by {
        assert ids == rest + {latest};
      }
      var other := LatestIn(table, rest);
      if table[other].createdAt > table[latest].createdAt {
        latest := other;
      }
    }
  }

  lemma ReadsKeepSound(table: Table, id: nat, now: int)
    requires Sound(table) && id in table
    ensures OnlyAges(table, Viewed(table, id, now)) && Sound(Viewed(table, id, now))
    ensures OnlyAges(table, Refreshed(table, id, now)) && Sound(Refreshed(table, id, now))
  {
    AgeingKeepsSound(table, Viewed(table, id, now));
    AgeingKeepsSound(table, Refreshed(table, id, now));
  }

  lemma SweepKeepsSound(table: Table, owner: string, now: int)
    requires Sound(table)
    ensures Sound(Swept(table, owner, now))
  {
    AgeingKeepsSound(table, Swept(table, owner, now));
  }

  lemma ActKeepsSound(table: Table, act: Act, now: int)
    requires Sound(table)
    ensures Sound(Acted(table, act, now).0)
  {
    if act.id in table {
      ReadsKeepSound(table, act.id, now);
      var fresher := Refreshed(table, act.id, now);
      var row := fresher[act.id];
      if row.status == act.action.From() {
        var decided := Decided(row, act.action, act.updatedBy, row.grantDuration, now);
        RowAges(fresher, act.id, decided);
        AgeingKeepsSound(fresher, fresher[act.id := decided]);
      }
    }
  }

  /** Creating with a creation time after all earlier ones keeps the invariant, and is never refused by the index. What
      it answers with is active, of the request's owner and application, and for exactly the requested fields; it is
      approved only if such a grant was there before and is unexpired. No other pair's records change. */
  lemma CreateKeepsSound(table: Table, req: Request, newId: nat, now: int)
    requires Sound(table) && newId !in table
    requires forall id | id in table :: table[id].createdAt < now
    ensures var (later, r) := Created(table, req, newId, now);
            && Sound(later)
            && (r.Ok? <==> ValidRequest(req))
            && (r.Ok? ==> r.value.id in later && Grants(later, req, r.value))
            && (r.Ok? && r.value.status == Approved ==>
                  r.value.id in table && table[r.value.id] == later[r.value.id] && !Stale(table[r.value.id], now))
            && (forall id | id in table && !Same(table[id], req.owner, req.app) ::
                  id in later && later[id] == table[id])
  {
    if ValidRequest(req) {
      var latest := LatestOf(table, req.owner, req.app);
      AtMostOneActive(table, req.owner, req.app);
      if latest.Some? {
        CreateOver(table, req, newId, now, latest.value);
      } else {
        InsertKeepsSound(table, req, newId, now);
      }
    }
  }

  lemma FreedAges(table: Table, id: nat, now: int)
    requires id in table
    ensures OnlyAges(table, Freed(table, id, now)) && !Freed(table, id, now)[id].status.Active()
    ensures forall other | other in table && other != id ::
              Viewed(table, id, now)[other] == table[other] && Freed(table, id, now)[other] == table[other]
  {
  }

  lemma CreateOver(table: Table, req: Request, newId: nat, now: int, id: nat)
    requires Sound(table) && newId !in table && ValidRequest(req) && IsLatest(table, req.owner, req.app, id)
    requires forall other | other in table :: table[other].createdAt < now
    ensures Sound(Viewed(table, id, now))
    ensures NoActive(Freed(table, id, now), req.owner, req.app)
    ensures Sound(Freed(table, id, now)[newId := NewRow(req, now)])
    ensures forall other | other in table && other != id ::
              Viewed(table, id, now)[other] == table[other] && Freed(table, id, now)[other] == table[other]
  {
    ReadsKeepSound(table, id, now);
    var freed := Freed(table, id, now);
    FreedAges(table, id, now);
    AgeingKeepsSound(table, freed);
    FreedForInsert(table, req, id, freed);
    forall other | other in freed ensures freed[other].createdAt < now {
      assert table[other].createdAt < now;
    }
    InsertKeepsSound(freed, req, newId, now);
  }

  predicate Grants(table: Table, req: Request, view: View)
    requires view.id in table
  {
    var row := table[view.id];
    Same(row, req.owner, req.app) && row.fields == req.fields && row.status.Active() && view == ViewOf(view.id, row)
  }

  lemma FreedForInsert(table: Table, req: Request, id: nat, freed: Table)
    requires Sound(table) && IsLatest(table, req.owner, req.app, id) && OnlyAges(table, freed)
    requires !freed[id].status.Active()
    ensures NoActive(freed, req.owner, req.app)
  {
    forall other | other in freed && Same(freed[other], req.owner, req.app) ensures !freed[other].status.Active() {
      if freed[other].status.Active() {
        LatestIsActive(table, req.owner, req.app, id, other);
      }
    }
  }

  lemma InsertKeepsSound(table: Table, req: Request, newId: nat, now: int)
    requires Sound(table) && newId !in table && NoActive(table, req.owner, req.app)
    requires forall id | id in table :: table[id].createdAt < now
    ensures Sound(table[newId := NewRow(req, now)])
  {
    var later := table[newId := NewRow(req, now)];
    forall a | a in later && later[a].status.Active() ensures IsLatest(later, later[a].owner, later[a].app, a) {
      if a != newId {
        assert IsLatest(table, table[a].owner, table[a].app, a);
      }
    }
  }

  // Runs

  datatype Call =
    | Read(id: nat)
    | ReadLatest(owner: string, app: string)
    | Show(id: nat, owner: string)
    | Sweep(owner: string)
    | Decide(act: Act)
    | Create(req: Request, newId: nat)

  ghost function Apply(table: Table, call: Call, now: int): Table {
    match call
    case Read(id) => if id in table then Viewed(table, id, now) else table
    case ReadLatest(owner, app) =>
      var latest := LatestOf(table, owner, app);
      if latest.Some? then Viewed(table, latest.value, now) else table
    case Show(id, owner) => if id in table && table[id].owner == owner then Refreshed(table, id, now) else table
    case Sweep(owner) => Swept(table, owner, now)
    case Decide(act) => Acted(table, act, now).0
    case Create(req, newId) => Created(table, req, newId, now).0
  }

  /** A call as it can come: creations have new ids and happen after every earlier creation. */
  predicate Possible(table: Table, call: Call, now: int) {
    call.Create? ==> call.newId !in table && forall id | id in table :: table[id].createdAt < now
  }

  ghost predicate Run(trace: seq<Table>, calls: seq<Call>, times: seq<int>) {
    && |trace| == |calls| + 1 && |times| == |calls|
    && trace[0] == map[]
    && forall i | 0 <= i < |calls| ::
         Possible(trace[i], calls[i], times[i]) && trace[i + 1] == Apply(trace[i], calls[i], times[i])
  }

  /** In every run each pair has at most one active record, it is the one with the latest creation time, and no creation
      runs into the partial unique index. */
  lemma {:induction false} RunsStaySound(trace: seq<Table>, calls: seq<Call>, times: seq<int>, i: nat)
    requires Run(trace, calls, times) && i < |trace|
    ensures Sound(trace[i])
    ensures forall a, b | a in trace[i] && b in trace[i] && trace[i][a].status in {Pending, Approved}
                          && trace[i][a].owner == trace[i][b].owner && trace[i][a].app == trace[i][b].app ::
              && trace[i][b].createdAt <= trace[i][a].createdAt
              && (trace[i][b].status in {Pending, Approved} ==> a == b)
    ensures i < |calls| && calls[i].Create? && ValidRequest(calls[i].req) ==>
              Created(trace[i], calls[i].req, calls[i].newId, times[i]).1.Ok?
  {
    if i > 0 {
      RunsStaySound(trace, calls, times, i - 1);
      var table, call, now := trace[i - 1], calls[i - 1], times[i - 1];
      assert Possible(table, call, now) && trace[i] == Apply(table, call, now);
      CallKeepsSound(table, call, now);
    }
    AtMostOneActive(trace[i], "", "");
    forall a, b | a in trace[i] && b in trace[i] && trace[i][a].status in {Pending, Approved}
                  && trace[i][a].owner == trace[i][b].owner && trace[i][a].app == trace[i][b].app
      ensures trace[i][b].createdAt <= trace[i][a].createdAt && (trace[i][b].status in {Pending, Approved} ==> a == b)
    {
      assert IsLatest(trace[i], trace[i][a].owner, trace[i][a].app, a);
      assert Same(trace[i][b], trace[i][a].owner, trace[i][a].app);
    }
    if i < |calls| && calls[i].Create? {
      assert Possible(trace[i], calls[i], times[i]);
      CreateKeepsSound(trace[i], calls[i].req, calls[i].newId, times[i]);
    }
  }

  lemma CallKeepsSound(table: Table, call: Call, now: int)
    requires Sound(table) && Possible(table, call, now)
    ensures Sound(Apply(table, call, now))
  {
    match call {
      case Read(id) =>
        if id in table {
          ReadsKeepSound(table, id, now);
        }
      case ReadLatest(owner, app) =>
        if LatestOf(table, owner, app).Some? {
          ReadsKeepSound(table, LatestOf(table, owner, app).value, now);
        }
      case Show(id, owner) =>
        if id in table {
          ReadsKeepSound(table, id, now);
        }
      case Sweep(owner) => SweepKeepsSound(table, owner, now);
      case Decide(act) => ActKeepsSound(table, act, now);
      case Create(req, newId) => CreateKeepsSound(table, req, newId, now);
    }
  }
}
