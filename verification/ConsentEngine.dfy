/** The consent engine over its table of records, each call reading the clock once. */
module ConsentEngine {
  import opened Wrappers
  import opened Consent
  import opened ConsentService

  /** The record has expired if its deadline has passed, and is otherwise untouched. */
  predicate ExpiredIfDue(before: Row, after: Row, now: int) {
    after == if StatusAt(before, now) == before.status then before else before.(status := Expired, updatedAt := now)
  }

  class Engine {
    var table: Table

    constructor ()
      ensures table == map[]
    {
      table := map[];
    }

    /** The record with the latest creation time for the pair. */
    method FindLatest(owner: string, app: string) returns (latest: Option<nat>)
      ensures Latest(table, owner, app, latest)
      ensures latest.Some? ==>
                && latest.value in table && table[latest.value].owner == owner && table[latest.value].app == app
                && forall id | id in table && table[id].owner == owner && table[id].app == app ::
                     table[id].createdAt <= table[latest.value].createdAt
      ensures latest.None? ==> forall id | id in table :: table[id].owner != owner || table[id].app != app
    {
      latest := None;
      var ids := table.Keys;
      while ids != {}
        invariant ids <= table.Keys
        invariant latest.None? ==> forall id | id in table && id !in ids :: !Same(table[id], owner, app)
        invariant latest.Some? ==>
            && latest.value in table && Same(table[latest.value], owner, app)
            && forall id | id in table && id !in ids && Same(table[id], owner, app) ::
                 table[id].createdAt <= table[latest.value].createdAt
        decreases |ids|
      {
        var id :| id in ids;
        if Same(table[id], owner, app) && (latest.None? || table[latest.value].createdAt < table[id].createdAt) {
          latest := Some(id);
        }
        ids := ids - {id};
      }
    }

    /** The view of one record for the orchestration engine, by id or the latest of a pair. A record past its
        deadline is written back as expired. */
    method GetInternalView(id: Option<nat>, owner: Option<string>, app: Option<string>, now: int)
      returns (r: Result<View, ConsentError>)
      modifies this
      ensures r.Ok? ==> && r.value.id in old(table) && table == Viewed(old(table), r.value.id, now)
                        && r.value == ViewOf(r.value.id, table[r.value.id]) && !Stale(table[r.value.id], now)
      // On the columns: the record is written back with the status it has at this time, and shown with it
      ensures r.Ok? ==>
                var before := old(table)[r.value.id];
                && table == old(table)[r.value.id := before.(status := StatusAt(before, now))]
                && r.value.status == StatusAt(before, now)
                && r.value.fields == if r.value.status in {Pending, Approved} then Some(before.fields) else None
      ensures r.Ok? && id.Some? ==> r.value.id == id.value
      ensures r.Ok? && id.None? ==> owner.Some? && app.Some? && IsLatest(old(table), owner.value, app.value, r.value.id)
      ensures r.Err? ==> table == old(table) && r.error in {NotFound, InvalidRequest}
      ensures r == Err(InvalidRequest) <==> id.None? && !(owner.Some? && app.Some?)
      ensures r == Err(NotFound) <==>
                if id.Some? then id.value !in table
                else owner.Some? && app.Some? && NoneFor(table, owner.value, app.value)
    {
      var found: nat;
      if id.Some? {
        if id.value !in table {
          return Err(NotFound);
        }
        found := id.value;
      } else if owner.Some? && app.Some? {
        var latest := FindLatest(owner.value, app.value);
        if latest.None? {
          return Err(NotFound);
        }
        found := latest.value;
      } else {
        return Err(InvalidRequest);
      }
      var row := table[found];
      if Stale(row, now) {
        row := MarkedExpired(row);
        table := table[found := row];
      }
      r := Ok(ViewOf(found, row));
    }

    /** Expires the record if its deadline has passed, provided it still is in the status it was loaded with. */
    method PersistExpiryIfStale(id: nat, now: int)
      requires id in table
      modifies this
      ensures table == Refreshed(old(table), id, now)
    {
      var row := table[id];
      if Stale(row, now) {
        table := table[id := PersistedExpired(row, now)];
      }
    }

    /** A record for its owner. Nobody else's call changes it. */
    method GetPortalView(id: nat, owner: string, now: int) returns (r: Result<Row, ConsentError>)
      modifies this
      ensures table == Apply(old(table), Show(id, owner), now)
      ensures r.Ok? <==> id in old(table) && old(table)[id].owner == owner
      ensures r.Ok? ==> id in table && r.value == table[id] && !Stale(r.value, now)
      ensures r.Ok? ==> ExpiredIfDue(old(table)[id], r.value, now) && table == old(table)[id := r.value]
      ensures r.Err? ==> table == old(table) && r.error == if id in table then AccessDenied else NotFound
    {
      if id !in table {
        return Err(NotFound);
      }
      if table[id].owner != owner {
        return Err(AccessDenied);
      }
      PersistExpiryIfStale(id, now);
      r := Ok(table[id]);
    }

    /** Expires the owner's stale records: the pending ones, then the approved ones. */
    method ExpireStale(owner: string, now: int)
      modifies this
      ensures table == Swept(old(table), owner, now)
      ensures table.Keys == old(table).Keys
      ensures forall id | id in table ::
                if table[id].owner == owner then ExpiredIfDue(old(table)[id], table[id], now)
                else table[id] == old(table)[id]
    {
      SweptInTwo(table, owner, now);
      table := SweptIn(table, owner, Pending, now);
      table := SweptIn(table, owner, Approved, now);
    }

    /** A decision from the portal. It changes the record only from the status it decides on, and no other record. */
    method UpdateStatus(act: Act, now: int) returns (r: Result<(), ConsentError>)
      modifies this
      ensures (table, r) == Acted(old(table), act, now)
      ensures r == Err(NotFound) <==> act.id !in old(table)
      ensures r == Err(AccessDenied) <==> act.id in old(table) && old(table)[act.id].owner != act.owner
      // The decision is taken on the owner's record as it stands at this time
      ensures r.Ok? <==>
                && act.id in old(table) && old(table)[act.id].owner == act.owner
                && StatusAt(old(table)[act.id], now) == if act.action == Revoke then Approved else Pending
      ensures r.Ok? ==>
                && act.id in table
                && table[act.id] == old(table)[act.id].(
                     status := match act.action case Approve => Approved case Reject => Rejected case Revoke => Revoked,
                     updatedAt := now, updatedBy := Some(act.updatedBy), pendingExpiresAt := None,
                     grantExpiresAt := if act.action == Approve
                                       then Some(now + GrantSeconds(old(table)[act.id].grantDuration))
                                       else old(table)[act.id].grantExpiresAt)
      ensures r.Err? && r.error !in {NotFound, AccessDenied} ==>
                r.error == if act.action == Revoke then NotRevocable else NotPending
      ensures r.Err? ==>
                if r.error in {NotFound, AccessDenied} then table == old(table)
                else act.id in table && ExpiredIfDue(old(table)[act.id], table[act.id], now)
      ensures table.Keys == old(table).Keys
      ensures forall id | id in table && id != act.id :: table[id] == old(table)[id]
    {
      if act.id !in table {
        return Err(NotFound);
      }
      if table[act.id].owner != act.owner {
        return Err(AccessDenied);
      }
      PersistExpiryIfStale(act.id, now);
      var row := table[act.id];
      if row.status != act.action.From() {
        return Err(WrongStatus(act.action));
      }
      table := table[act.id := Decided(row, act.action, act.updatedBy, row.grantDuration, now)];
      r := Ok(());
    }

    /** Revokes a record and inserts its replacement, or does neither. */
    method RevokeAndCreate(id: nat, req: Request, newId: nat, now: int) returns (r: Result<View, ConsentError>)
      requires id in table && newId !in table
      modifies this
      ensures var freed := old(table)[id := Replaced(old(table)[id], now)];
              if old(table)[id].status.Active() && NoActive(freed, req.owner, req.app)
              then table == freed[newId := NewRow(req, now)] && r == Ok(ViewOf(newId, NewRow(req, now)))
              else table == old(table) && r == Err(CreateFailed)
    {
      var row := table[id];
      if row.status != Approved && row.status != Pending {
        return Err(CreateFailed);
      }
      var freed := table[id := Replaced(row, now)];
      var inserted := Inserted(freed, newId, NewRow(req, now));
      if inserted.Err? {
        return Err(CreateFailed);
      }
      table := inserted.value;
      r := Ok(ViewOf(newId, NewRow(req, now)));
    }

    /** Creates a pending record, or answers with the active one for the same fields. `latest` is the record the query
        for the pair's latest one returned. */
    method Create(req: Request, newId: nat, now: int) returns (r: Result<View, ConsentError>, ghost latest: Option<nat>)
      requires newId !in table
      modifies this
      ensures Latest(old(table), req.owner, req.app, latest)
      ensures (table, r) == CreatedFrom(old(table), req, latest, newId, now)
      ensures r.Ok? ==> r.value.id in table && Grants(table, req, r.value) && InForce(table[r.value.id], now)
      ensures r.Ok? && r.value.status == Approved ==>
                table == old(table) && ConsentHeld(table, r.value.id, req, now)
      ensures Malformed(req) ==> r == Err(CreateFailed) && table == old(table)
      ensures Sound(old(table)) && (forall id | id in old(table) :: old(table)[id].createdAt < now) ==>
                Sound(table) && (r.Ok? <==> !Malformed(req))
    {
      if Sound(table) && forall id | id in table :: table[id].createdAt < now {
        CreateKeepsSound(table, req, newId, now);
      }
      ValidIffWellFormed(req);
      LatestExists(table, req.owner, req.app);
      latest := LatestOf(table, req.owner, req.app);
      if !ValidRequest(req) {
        return Err(CreateFailed), latest;
      }
      var existing := GetInternalView(None, Some(req.owner), Some(req.app), now);
      if existing.Ok? {
        latest := Some(existing.value.id);
        if existing.value.status == Pending || existing.value.status == Approved {
          var same := FieldsEqual(existing.value.fields, req.fields);
          if same {
            return existing, latest;
          }
          r := RevokeAndCreate(existing.value.id, req, newId, now);
          return;
        }
      } else {
        latest := None;
      }
      var row := NewRow(req, now);
      var inserted := Inserted(table, newId, row);
      if inserted.Err? {
        return Err(CreateFailed), latest;
      }
      table := inserted.value;
      r := Ok(ViewOf(newId, row));
    }
  }
}
