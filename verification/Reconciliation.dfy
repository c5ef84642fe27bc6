/** Reconciling a schema's policy rows with a request: what is read and planned, and what is later written, with grants
    and revocations allowed in between. */
module Reconciliation {
  import opened Wrappers
  import opened Policy

  type Rows = map<nat, PolicyRow>

  datatype Record = Record(fieldName: string, metadata: Metadata)

  /** An update of a row's metadata columns. */
  datatype Update = Update(id: nat, metadata: Metadata)

  datatype Change = Change(deleted: set<nat>, created: seq<PolicyRow>, updated: seq<Update>)

  predicate IsField(row: PolicyRow, schemaId: string, fieldName: string) {
    row.schemaId == schemaId && row.fieldName == fieldName
  }

  /** Rows are stored under their ids, and the unique index on schema and field holds. */
  predicate Indexed(rows: Rows) {
    && (forall id | id in rows :: rows[id].id == id)
    && (forall a, b | a in rows && b in rows && IsField(rows[a], rows[b].schemaId, rows[b].fieldName) :: a == b)
  }

  /** No field the schema does not have yet is requested twice. */
  predicate NewOnce(existing: map<string, nat>, records: seq<Record>) {
    forall i, j | 0 <= i < j < |records| && records[i].fieldName == records[j].fieldName ::
      records[i].fieldName in existing
  }

  /** No later record is for the same field. */
  predicate IsLast(records: seq<Record>, i: nat)
    requires i < |records|
  {
    forall j | i < j < |records| :: records[j].fieldName != records[i].fieldName
  }

  predicate Requested(records: seq<Record>, fieldName: string) {
    exists i :: 0 <= i < |records| && records[i].fieldName == fieldName
  }

  // The plan

  /** The row of each field of the schema, by name. */
  predicate Maps(existing: map<string, nat>, rows: Rows, schemaId: string) {
    && (forall name | name in existing :: existing[name] in rows && IsField(rows[existing[name]], schemaId, name))
    && (forall id | id in rows && rows[id].schemaId == schemaId ::
          rows[id].fieldName in existing && existing[rows[id].fieldName] == id)
  }

  /** The schema's rows by field name. */
  function Existing(rows: Rows, schemaId: string): (existing: map<string, nat>)
    requires Indexed(rows)
    ensures Maps(existing, rows, schemaId)
  {
    map id | id in rows && rows[id].schemaId == schemaId :: rows[id].fieldName := id
  }

  function NewPolicyRow(id: nat, schemaId: string, record: Record, now: int): PolicyRow {
    PolicyRow(id, schemaId, record.fieldName, record.metadata, map[], now, now)
  }

  function CreatedFor(existing: map<string, nat>, schemaId: string, records: seq<Record>, ids: seq<nat>, now: int):
    seq<PolicyRow>
    requires |ids| == |records|
  {
    if records == [] then []
    else
      var n := |records| - 1;
      var front := CreatedFor(existing, schemaId, records[..n], ids[..n], now);
      if records[n].fieldName in existing then front else front + [NewPolicyRow(ids[n], schemaId, records[n], now)]
  }

  function UpdatedFor(existing: map<string, nat>, records: seq<Record>): seq<Update> {
    if records == [] then []
    else
      var n := |records| - 1;
      var front := UpdatedFor(existing, records[..n]);
      if records[n].fieldName in existing
      then front + [Update(existing[records[n].fieldName], records[n].metadata)] else front
  }

  function DeletedFor(existing: map<string, nat>, records: seq<Record>): set<nat> {
    set name | name in existing && !Requested(records, name) :: existing[name]
  }

  function PlanChange(existing: map<string, nat>, schemaId: string, records: seq<Record>, ids: seq<nat>, now: int):
    Change
    requires |ids| == |records|
  {
    Change(DeletedFor(existing, records), CreatedFor(existing, schemaId, records, ids, now),
           UpdatedFor(existing, records))
  }

  // Writing it

  predicate Vacant(rows: Rows, row: PolicyRow) {
    row.id !in rows && forall id | id in rows :: !IsField(rows[id], row.schemaId, row.fieldName)
  }

  /** The rows with all created ones inserted, or nothing if one of them breaks the unique index. */
  function InsertAll(rows: Rows, created: seq<PolicyRow>): Option<Rows> {
    if created == [] then Some(rows)
    else
      var n := |created| - 1;
      match InsertAll(rows, created[..n])
      case None => None
      case Some(before) => if Vacant(before, created[n]) then Some(before[created[n].id := created[n]]) else None
  }

  /** Only the metadata columns are written, and only of rows that still are there. */
  function UpdateAll(rows: Rows, updated: seq<Update>, now: int): Rows {
    if updated == [] then rows
    else
      var before, u := UpdateAll(rows, updated[..|updated| - 1], now), updated[|updated| - 1];
      if u.id in before then before[u.id := before[u.id].(metadata := u.metadata, updatedAt := now)] else before
  }

  class PolicyStore {
    var rows: Rows

    /** The schema's rows by field name. */
    method ReadSchema(schemaId: string) returns (existing: map<string, nat>)
      requires Indexed(rows)
      ensures existing == Existing(rows, schemaId)
    {
      existing := map[];
      var left := rows.Keys;
      while left != {}
        invariant left <= rows.Keys
        invariant forall name | name in existing ::
                    existing[name] in rows && IsField(rows[existing[name]], schemaId, name)
        invariant forall id | id in rows && id !in left && rows[id].schemaId == schemaId ::
                    rows[id].fieldName in existing && existing[rows[id].fieldName] == id
        decreases |left|
      {
        var id :| id in left;
        if rows[id].schemaId == schemaId {
          existing := existing[rows[id].fieldName := id];
        }
        left := left - {id};
      }
    }

    /** Reads the schema's rows and plans what to delete, create and update. */
    method Plan(schemaId: string, records: seq<Record>, ids: seq<nat>, now: int) returns (change: Change)
      requires Indexed(rows) && |ids| == |records|
      ensures change == PlanChange(Existing(rows, schemaId), schemaId, records, ids, now)
    {
      var existing := ReadSchema(schemaId);
      var processed: set<string> := {};
      var created: seq<PolicyRow> := [];
      var updated: seq<Update> := [];
      for i := 0 to |records|
        invariant forall name :: name in processed <==> Requested(records[..i], name)
        invariant created == CreatedFor(existing, schemaId, records[..i], ids[..i], now)
        invariant updated == UpdatedFor(existing, records[..i])
      {
        assert records[..i + 1][..i] == records[..i] && ids[..i + 1][..i] == ids[..i];
        RequestedSnoc(records, i);
        var record := records[i];
        processed := processed + {record.fieldName};
        if record.fieldName in existing {
          updated := updated + [Update(existing[record.fieldName], record.metadata)];
        } else {
          created := created + [NewPolicyRow(ids[i], schemaId, record, now)];
        }
      }
      assert records[..|records|] == records && ids[..|records|] == ids;
      var deleted := set name | name in existing && name !in processed :: existing[name];
      change := Change(deleted, created, updated);
    }

    /** Writes a change, in one transaction: all of it, or nothing when a created row breaks the unique index. */
    method Commit(change: Change, now: int) returns (ok: bool)
      modifies this
      ensures var inserted := InsertAll(old(rows) - change.deleted, change.created);
              && ok == inserted.Some?
              && rows == if ok then UpdateAll(inserted.value, change.updated, now) else old(rows)
    {
      var next := rows - change.deleted;
      ghost var kept := next;
      for i := 0 to |change.created|
        invariant InsertAll(kept, change.created[..i]) == Some(next)
      {
        var row := change.created[i];
        assert change.created[..i + 1][..i] == change.created[..i];
        if row.id in next || exists id | id in next :: IsField(next[id], row.schemaId, row.fieldName) {
          InsertStops(kept, change.created, i + 1);
          return false;
        }
        next := next[row.id := row];
      }
      assert change.created[..|change.created|] == change.created;
      ghost var inserted := next;
      for i := 0 to |change.updated|
        invariant next == UpdateAll(inserted, change.updated[..i], now)
      {
        var u := change.updated[i];
        assert change.updated[..i + 1][..i] == change.updated[..i];
        if u.id in next {
          next := next[u.id := next[u.id].(metadata := u.metadata, updatedAt := now)];
        }
      }
      assert change.updated[..|change.updated|] == change.updated;
      rows := next;
      ok := true;
    }
  }

  lemma RequestedSnoc(records: seq<Record>, i: nat)
    requires i < |records|
    ensures forall name :: Requested(records[..i + 1], name) <==>
                           Requested(records[..i], name) || name == records[i].fieldName
  {
    var front, longer := records[..i], records[..i + 1];
    forall name | Requested(front, name) ensures Requested(longer, name) {
      var j :| 0 <= j < |front| && front[j].fieldName == name;
      assert longer[j] == front[j];
    }
    forall name | Requested(longer, name) && name != records[i].fieldName ensures Requested(front, name) {
      var j :| 0 <= j < |longer| && longer[j].fieldName == name;
      assert front[j] == longer[j];
    }
    assert longer[i] == records[i];
  }

  lemma {:induction false} InsertStops(rows: Rows, created: seq<PolicyRow>, i: nat)
    requires i <= |created| && InsertAll(rows, created[..i]) == None
    ensures InsertAll(rows, created) == None
    decreases |created| - i
  {
    if i < |created| {
      assert created[..i + 1][..i] == created[..i];
      InsertStops(rows, created, i + 1);
    } else {
      assert created[..i] == created;
    }
  }

  // What reconciliation means

  /** `after` is `before` with the schema's rows made to match the request: exactly the requested fields, with the
      metadata last requested, updated now; retained fields keep their id, allow-list and creation time; new fields
      start now, without grants; other schemas' rows are as they were. */
  predicate Reconciled(before: Rows, after: Rows, schemaId: string, records: seq<Record>, now: int) {
    && Indexed(after)
    && (forall id | id in after && after[id].schemaId == schemaId :: MatchesRequest(after[id], records))
    && (forall i | 0 <= i < |records| :: HasField(after, schemaId, records[i].fieldName))
    && (forall id | id in before && before[id].schemaId == schemaId && Requested(records, before[id].fieldName) ::
          id in after && Retained(before[id], after[id]) && after[id].updatedAt == now)
    && (forall id | id in after && id !in before :: after[id].schemaId == schemaId && New(after[id], now))
    && (forall id | id in before && before[id].schemaId != schemaId :: id in after && after[id] == before[id])
  }

  predicate New(row: PolicyRow, now: int) {
    row.allowList == map[] && row.createdAt == now && row.updatedAt == now
  }

  predicate MatchesRequest(row: PolicyRow, records: seq<Record>) {
    exists i :: 0 <= i < |records| && Fits(row, records, i)
  }

  predicate Fits(row: PolicyRow, records: seq<Record>, i: nat)
    requires i < |records|
  {
    records[i].fieldName == row.fieldName && records[i].metadata == row.metadata && IsLast(records, i)
  }

  predicate HasField(rows: Rows, schemaId: string, fieldName: string) {
    exists id :: id in rows && IsField(rows[id], schemaId, fieldName)
  }

  predicate Retained(before: PolicyRow, after: PolicyRow) {
    && IsField(after, before.schemaId, before.fieldName)
    && after.allowList == before.allowList && after.createdAt == before.createdAt
  }

  /** Between reading and writing, grants and revocations may change allow-lists, and nothing else changes. */
  predicate OnlyGrants(seen: Rows, current: Rows) {
    && seen.Keys == current.Keys
    && forall id | id in seen ::
         current[id] == seen[id].(allowList := current[id].allowList, updatedAt := current[id].updatedAt)
  }

  predicate NewIds(rows: Rows, ids: seq<nat>) {
    (forall id | id in ids :: id !in rows) && forall i, j | 0 <= i < j < |ids| :: ids[i] != ids[j]
  }

  /** The row `id` is the one the `i`-th record created. */
  predicate IsNew(rows: Rows, id: nat, existing: map<string, nat>, schemaId: string, records: seq<Record>,
                  ids: seq<nat>, now: int, i: nat)
    requires |ids| == |records| && i < |records|
  {
    && records[i].fieldName !in existing && id == ids[i]
    && id in rows && rows[id] == NewPolicyRow(id, schemaId, records[i], now)
  }

  /** What the first `n` records have put into the kept rows. */
  ghost predicate InsertedSoFar(kept: Rows, rows: Rows, existing: map<string, nat>, schemaId: string,
                                records: seq<Record>, ids: seq<nat>, now: int, n: nat)
    requires |ids| == |records| && n <= |records|
  {
    && (forall id | id in kept :: id in rows && rows[id] == kept[id])
    && (forall id | id in rows && id !in kept ::
          exists i :: 0 <= i < n && IsNew(rows, id, existing, schemaId, records, ids, now, i))
    && (forall i | 0 <= i < n && records[i].fieldName !in existing ::
          IsNew(rows, ids[i], existing, schemaId, records, ids, now, i))
  }

  /** Inserting succeeds exactly when no new field is requested twice. */
  lemma {:induction false} InsertsSucceedIff(kept: Rows, existing: map<string, nat>, schemaId: string,
                                             records: seq<Record>, ids: seq<nat>, now: int, n: nat)
    requires |ids| == |records| && n <= |records| && NewIds(kept, ids)
    requires forall id | id in kept && kept[id].schemaId == schemaId :: kept[id].fieldName in existing
    ensures var r := InsertAll(kept, CreatedFor(existing, schemaId, records[..n], ids[..n], now));
            && (r.Some? <==> NewOnce(existing, records[..n]))
            && (r.Some? ==> InsertedSoFar(kept, r.value, existing, schemaId, records, ids, now, n))
  {
    if n > 0 {
      InsertsSucceedIff(kept, existing, schemaId, records, ids, now, n - 1);
      assert records[..n][..n - 1] == records[..n - 1] && ids[..n][..n - 1] == ids[..n - 1];
      OnceSnoc(existing, records, n - 1);
      var created := CreatedFor(existing, schemaId, records[..n - 1], ids[..n - 1], now);
      var row := NewPolicyRow(ids[n - 1], schemaId, records[n - 1], now);
      if records[n - 1].fieldName !in existing {
        InsertSnoc(kept, created, row);
      }
      if InsertAll(kept, created).Some? {
        InsertOne(kept, InsertAll(kept, created).value, existing, schemaId, records, ids, now, n - 1);
      }
    }
  }

  /** The `n`-th record is for no field that an earlier one creates. */
  predicate NotYet(existing: map<string, nat>, records: seq<Record>, n: nat)
    requires n < |records|
  {
    records[n].fieldName in existing || forall i | 0 <= i < n :: records[i].fieldName != records[n].fieldName
  }

  lemma OnceSnoc(existing: map<string, nat>, records: seq<Record>, n: nat)
    requires n < |records|
    ensures NewOnce(existing, records[..n + 1]) <==> NewOnce(existing, records[..n]) && NotYet(existing, records, n)
  {
    var upTo, front := records[..n + 1], records[..n];
    assert forall i | 0 <= i < n :: upTo[i] == front[i] == records[i];
    assert upTo[n] == records[n];
    if NewOnce(existing, upTo) {
      forall i | 0 <= i < n && records[i].fieldName == records[n].fieldName ensures records[n].fieldName in existing {
        assert upTo[i].fieldName == upTo[n].fieldName;
      }
    }
  }

  lemma InsertSnoc(rows: Rows, created: seq<PolicyRow>, row: PolicyRow)
    ensures InsertAll(rows, created + [row]) ==
            match InsertAll(rows, created)
            case None => None
            case Some(before) => if Vacant(before, row) then Some(before[row.id := row]) else None
  {
    assert (created + [row])[..|created|] == created;
  }

  /** The next record's row finds its place free exactly when no earlier one created the field, and puts itself
      there. */
  lemma InsertOne(kept: Rows, before: Rows, existing: map<string, nat>, schemaId: string, records: seq<Record>,
                  ids: seq<nat>, now: int, n: nat)
    requires |ids| == |records| && n < |records| && NewIds(kept, ids)
    requires forall id | id in kept && kept[id].schemaId == schemaId :: kept[id].fieldName in existing
    requires InsertedSoFar(kept, before, existing, schemaId, records, ids, now, n)
    ensures var row := NewPolicyRow(ids[n], schemaId, records[n], now);
            if records[n].fieldName in existing
            then InsertedSoFar(kept, before, existing, schemaId, records, ids, now, n + 1)
            else
              && (Vacant(before, row) <==> NotYet(existing, records, n))
              && (Vacant(before, row) ==>
                    InsertedSoFar(kept, before[row.id := row], existing, schemaId, records, ids, now, n + 1))
  {
    if records[n].fieldName !in existing {
      if NotYet(existing, records, n) {
        RowIsAdded(kept, before, existing, schemaId, records, ids, now, n);
      }
    } else {
      forall id | id in before && id !in kept
        ensures exists i :: 0 <= i < n + 1 && IsNew(before, id, existing, schemaId, records, ids, now, i)
      {
        var i :| 0 <= i < n && IsNew(before, id, existing, schemaId, records, ids, now, i);
      }
    }
  }

  lemma RowIsAdded(kept: Rows, before: Rows, existing: map<string, nat>, schemaId: string, records: seq<Record>,
                   ids: seq<nat>, now: int, n: nat)
    requires |ids| == |records| && n < |records| && ids[n] !in before
    requires InsertedSoFar(kept, before, existing, schemaId, records, ids, now, n)
    requires records[n].fieldName !in existing
    ensures var row := NewPolicyRow(ids[n], schemaId, records[n], now);
            InsertedSoFar(kept, before[row.id := row], existing, schemaId, records, ids, now, n + 1)
  {
    var row := NewPolicyRow(ids[n], schemaId, records[n], now);
    var after := before[row.id := row];
    assert IsNew(after, ids[n], existing, schemaId, records, ids, now, n);
    forall id | id in after && id !in kept && id != ids[n]
      ensures exists i :: 0 <= i < n + 1 && IsNew(after, id, existing, schemaId, records, ids, now, i)
    {
      var i :| 0 <= i < n && IsNew(before, id, existing, schemaId, records, ids, now, i);
      assert IsNew(after, id, existing, schemaId, records, ids, now, i);
    }
    forall i | 0 <= i < n && records[i].fieldName !in existing
      ensures IsNew(after, ids[i], existing, schemaId, records, ids, now, i)
    {
      assert IsNew(before, ids[i], existing, schemaId, records, ids, now, i);
    }
  }

  predicate SameButMetadata(a: PolicyRow, b: PolicyRow) {
    b == a.(metadata := b.metadata, updatedAt := b.updatedAt)
  }

  /** Updating writes each existing field's metadata as last requested. */
  lemma {:induction false} UpdatesWrite(rows: Rows, existing: map<string, nat>, records: seq<Record>, now: int)
    requires forall x, y | x in existing && y in existing && existing[x] == existing[y] :: x == y
    ensures var after := UpdateAll(rows, UpdatedFor(existing, records), now);
            && after.Keys == rows.Keys
            && (forall id | id in rows :: SameButMetadata(rows[id], after[id]))
            && (forall i | 0 <= i < |records| && IsLast(records, i) && records[i].fieldName in existing
                           && existing[records[i].fieldName] in rows ::
                  var row := after[existing[records[i].fieldName]];
                  row.metadata == records[i].metadata && row.updatedAt == now)
  {
    if records != [] {
      var n := |records| - 1;
      UpdatesWrite(rows, existing, records[..n], now);
      LastUpdate(rows, existing, records, now);
      assert forall i | 0 <= i < n :: records[..n][i] == records[i];
      forall i | 0 <= i < n && IsLast(records, i) ensures IsLast(records[..n], i) {
      }
    }
  }

  lemma LastUpdate(rows: Rows, existing: map<string, nat>, records: seq<Record>, now: int)
    requires records != []
    ensures var n := |records| - 1;
            var before := UpdateAll(rows, UpdatedFor(existing, records[..n]), now);
            var name := records[n].fieldName;
            UpdateAll(rows, UpdatedFor(existing, records), now) ==
            if name in existing && existing[name] in before
            then before[existing[name] :=
                          before[existing[name]].(metadata := records[n].metadata, updatedAt := now)]
            else before
  {
    var n := |records| - 1;
    if records[n].fieldName in existing {
      var front := UpdatedFor(existing, records[..n]);
      var u := Update(existing[records[n].fieldName], records[n].metadata);
      assert (front + [u])[..|front|] == front;
    }
  }

  /** Updating leaves all other rows as they are. */
  lemma {:induction false} UpdatesSpare(rows: Rows, existing: map<string, nat>, records: seq<Record>, now: int, id: nat)
    requires id in rows
    requires forall i | 0 <= i < |records| && records[i].fieldName in existing :: existing[records[i].fieldName] != id
    ensures var after := UpdateAll(rows, UpdatedFor(existing, records), now); id in after && after[id] == rows[id]
  {
    if records != [] {
      var n := |records| - 1;
      assert forall i | 0 <= i < n :: records[..n][i] == records[i];
      UpdatesSpare(rows, existing, records[..n], now, id);
      LastUpdate(rows, existing, records, now);
    }
  }

  /** Reconciliation meets its specification, for every request: the commit succeeds exactly when no field that is new
      to the schema is requested twice, and then leaves the schema's rows as last requested, grants and revocations
      made since the rows were read included. */
  lemma ReconciliationIsExact(seen: Rows, current: Rows, schemaId: string, records: seq<Record>, ids: seq<nat>,
                              now: int)
    requires Indexed(seen) && Indexed(current) && OnlyGrants(seen, current)
    requires |ids| == |records| && NewIds(current, ids)
    ensures var existing := Existing(seen, schemaId);
            var change := PlanChange(existing, schemaId, records, ids, now);
            var inserted := InsertAll(current - change.deleted, change.created);
            && (inserted.Some? <==> NewOnce(existing, records))
            && (inserted.Some? ==>
                  Reconciled(current, UpdateAll(inserted.value, change.updated, now), schemaId, records, now))
  {
    var existing := Existing(seen, schemaId);
    var change := PlanChange(existing, schemaId, records, ids, now);
    var kept := current - change.deleted;
    assert Maps(existing, current, schemaId);
    assert records[..|records|] == records && ids[..|records|] == ids;
    InsertsSucceedIff(kept, existing, schemaId, records, ids, now, |records|);
    if NewOnce(existing, records) {
      WrittenIsReconciled(current, InsertAll(kept, change.created).value, existing, schemaId, records, ids, now);
    }
  }

  lemma WrittenIsReconciled(current: Rows, inserted: Rows, existing: map<string, nat>, schemaId: string,
                            records: seq<Record>, ids: seq<nat>, now: int)
    requires Indexed(current) && Maps(existing, current, schemaId)
    requires |ids| == |records| && NewOnce(existing, records) && NewIds(current, ids)
    requires InsertedSoFar(current - DeletedFor(existing, records), inserted, existing, schemaId, records, ids, now,
                           |records|)
    ensures Reconciled(current, UpdateAll(inserted, UpdatedFor(existing, records), now), schemaId, records, now)
  {
    var after := UpdateAll(inserted, UpdatedFor(existing, records), now);
    UpdatesWrite(inserted, existing, records, now);
    forall id | id in after && id in current
      ensures KeptRow(current, after, schemaId, records, now, id)
    {
      KeptAfter(current, inserted, existing, schemaId, records, ids, now, id);
    }
    forall id | id in after && id !in current
      ensures MatchesRequest(after[id], records) && after[id].schemaId == schemaId && New(after[id], now)
              && after[id].id == id && id in ids
              && exists i :: 0 <= i < |records| && records[i].fieldName !in existing && id == ids[i]
                             && after[id].fieldName == records[i].fieldName
    {
      NewAfter(current, inserted, existing, schemaId, records, ids, now, id);
    }
    forall i | 0 <= i < |records| ensures HasField(after, schemaId, records[i].fieldName) {
      FieldAfter(current, inserted, existing, schemaId, records, ids, now, i);
    }
    IndexedAfter(current, after, existing, schemaId, records, ids, now);
  }

  /** A row that was there and still is. */
  predicate KeptRow(current: Rows, after: Rows, schemaId: string, records: seq<Record>, now: int, id: nat)
    requires id in current && id in after
  {
    && after[id].id == current[id].id && Retained(current[id], after[id])
    && if current[id].schemaId == schemaId then MatchesRequest(after[id], records) && after[id].updatedAt == now
       else after[id] == current[id]
  }

  lemma KeptAfter(current: Rows, inserted: Rows, existing: map<string, nat>, schemaId: string,
                  records: seq<Record>, ids: seq<nat>, now: int, id: nat)
    requires Indexed(current) && Maps(existing, current, schemaId)
    requires |ids| == |records| && NewOnce(existing, records) && NewIds(current, ids)
    requires InsertedSoFar(current - DeletedFor(existing, records), inserted, existing, schemaId, records, ids, now,
                           |records|)
    requires id in current && id in inserted
    ensures var after := UpdateAll(inserted, UpdatedFor(existing, records), now);
            id in after && KeptRow(current, after, schemaId, records, now, id)
  {
    var kept := current - DeletedFor(existing, records);
    UpdatesWrite(inserted, existing, records, now);
    if current[id].schemaId != schemaId {
      UpdatesSpare(inserted, existing, records, now, id);
    } else if id in kept {
      var i := LastRecord(records, current[id].fieldName);
      assert existing[records[i].fieldName] == id;
      assert Fits(UpdateAll(inserted, UpdatedFor(existing, records), now)[id], records, i);
    }
  }

  lemma {:induction false} LastRecord(records: seq<Record>, fieldName: string) returns (i: nat)
    requires Requested(records, fieldName)
    ensures i < |records| && records[i].fieldName == fieldName && IsLast(records, i)
  {
    var n := |records| - 1;
    if records[n].fieldName == fieldName {
      i := n;
    } else {
      var j :| 0 <= j < |records| && records[j].fieldName == fieldName;
      assert records[..n][j].fieldName == fieldName;
      i := LastRecord(records[..n], fieldName);
    }
  }

  lemma NewAfter(current: Rows, inserted: Rows, existing: map<string, nat>, schemaId: string,
                 records: seq<Record>, ids: seq<nat>, now: int, id: nat)
    requires Indexed(current) && Maps(existing, current, schemaId)
    requires |ids| == |records| && NewOnce(existing, records) && NewIds(current, ids)
    requires InsertedSoFar(current - DeletedFor(existing, records), inserted, existing, schemaId, records, ids, now,
                           |records|)
    requires id in inserted && id !in current
    ensures var after := UpdateAll(inserted, UpdatedFor(existing, records), now);
            && id in after && MatchesRequest(after[id], records) && after[id].schemaId == schemaId
            && New(after[id], now) && after[id].id == id && id in ids
            && exists i :: 0 <= i < |records| && records[i].fieldName !in existing && id == ids[i]
                           && after[id].fieldName == records[i].fieldName
  {
    UpdatesWrite(inserted, existing, records, now);
    var i :| 0 <= i < |records| && IsNew(inserted, id, existing, schemaId, records, ids, now, i);
    UpdatesSpare(inserted, existing, records, now, id);
    assert Fits(inserted[id], records, i);
  }

  lemma FieldAfter(current: Rows, inserted: Rows, existing: map<string, nat>, schemaId: string,
                   records: seq<Record>, ids: seq<nat>, now: int, i: nat)
    requires Indexed(current) && Maps(existing, current, schemaId)
    requires |ids| == |records| && NewOnce(existing, records) && i < |records|
    requires InsertedSoFar(current - DeletedFor(existing, records), inserted, existing, schemaId, records, ids, now,
                           |records|)
    ensures HasField(UpdateAll(inserted, UpdatedFor(existing, records), now), schemaId, records[i].fieldName)
  {
    var after := UpdateAll(inserted, UpdatedFor(existing, records), now);
    var name := records[i].fieldName;
    UpdatesWrite(inserted, existing, records, now);
    if name in existing {
      assert Requested(records, name);
      var id := existing[name];
      assert id in current - DeletedFor(existing, records);
      assert id in after && IsField(after[id], schemaId, name);
    } else {
      assert IsNew(inserted, ids[i], existing, schemaId, records, ids, now, i);
      assert ids[i] in after && IsField(after[ids[i]], schemaId, name);
    }
  }

  lemma IndexedAfter(current: Rows, after: Rows, existing: map<string, nat>, schemaId: string, records: seq<Record>,
                     ids: seq<nat>, now: int)
    requires Indexed(current) && Maps(existing, current, schemaId) && |ids| == |records| && NewOnce(existing, records)
    requires forall id | id in after && id in current :: KeptRow(current, after, schemaId, records, now, id)
    requires forall id | id in after && id !in current ::
               after[id].schemaId == schemaId && after[id].id == id &&
               exists i :: 0 <= i < |records| && records[i].fieldName !in existing && id == ids[i]
                           && after[id].fieldName == records[i].fieldName
    ensures Indexed(after)
  {
    forall a, b | a in after && b in after && IsField(after[a], after[b].schemaId, after[b].fieldName) ensures a == b {
      if a in current && b in current {
        assert IsField(current[a], current[b].schemaId, current[b].fieldName);
      }
    }
  }
}
