/** Consent records: their statuses, deadlines and the changes made to one row. Times are in seconds. */
module Consent {
  import opened Wrappers

  datatype Status = Pending | Approved | Rejected | Expired | Revoked {
    predicate Active() {
      Pending? || Approved?
    }

    /** Pending, then approved, then over. */
    function Rank(): nat {
      match this
      case Pending => 0
      case Approved => 1
      case _ => 2
    }
  }

  datatype ConsentField = ConsentField(
    fieldName: string,
    schemaId: string,
    displayName: Option<string>,
    description: Option<string>,
    owner: string)

  datatype Row = Row(
    owner: string,
    app: string,
    status: Status,
    kind: string,
    createdAt: int,
    updatedAt: int,
    pendingExpiresAt: Option<int>,
    grantExpiresAt: Option<int>,
    grantDuration: string,
    fields: seq<ConsentField>,
    updatedBy: Option<string>)

  type Table = map<nat, Row>

  datatype Request = Request(
    app: string,
    owner: string,
    fields: seq<ConsentField>,
    grantDuration: Option<string>,
    kind: Option<string>)

  datatype Action = Approve | Reject | Revoke {
    /** The status the action decides on. */
    function From(): Status {
      if Revoke? then Approved else Pending
    }

    function To(): Status {
      match this
      case Approve => Approved
      case Reject => Rejected
      case Revoke => Revoked
    }
  }

  datatype ConsentError =
    | NotFound
    | AccessDenied
    | NotPending
    | NotRevocable
    | InvalidRequest
    | CreateFailed

  /** What a portal action answers when the consent is not in the status it decides on. */
  function WrongStatus(action: Action): ConsentError {
    if action.Revoke? then NotRevocable else NotPending
  }

  // Durations

  const HOUR: int := 3600
  const DAY: int := 24 * HOUR
  const REPLACED_BY := "System: revoked due to new consent with different fields"

  function GrantSeconds(duration: string): (seconds: int)
    ensures HOUR <= seconds <= 30 * DAY
  {
    if duration == "PT6H" then 6 * HOUR
    else if duration == "PT12H" then 12 * HOUR
    else if duration == "P1D" then DAY
    else if duration == "P7D" then 7 * DAY
    else if duration == "P30D" then 30 * DAY
    else HOUR
  }

  predicate KnownDuration(duration: string) {
    duration in {"PT1H", "PT6H", "PT12H", "P1D", "P7D", "P30D"}
  }

  function NumberOf(digits: string): nat {
    if digits == "" then 0
    else
      var last := digits[|digits| - 1];
      NumberOf(digits[..|digits| - 1]) * 10 + if '0' <= last <= '9' then last as nat - '0' as nat else 0
  }

  /** An ISO 8601 duration in whole hours, "PT6H", or whole days, "P7D". */
  function IsoSeconds(duration: string): Option<int> {
    var n := |duration|;
    if n > 3 && duration[..2] == "PT" && duration[n - 1] == 'H' then Some(NumberOf(duration[2..n - 1]) * 60 * 60)
    else if n > 2 && duration[0] == 'P' && duration[n - 1] == 'D' then Some(NumberOf(duration[1..n - 1]) * 24 * 60 * 60)
    else None
  }

  lemma Digits(first: char, second: char)
    requires '0' <= first <= '9' && '0' <= second <= '9'
    ensures NumberOf([first]) == first as nat - '0' as nat
    ensures NumberOf([first, second]) == (first as nat - '0' as nat) * 10 + (second as nat - '0' as nat)
  {
    assert "" + [first] == [first] && [first] + [second] == [first, second];
  }

  /** Every accepted grant duration is read as the ISO 8601 duration it is, and any other text as an hour. */
  lemma GrantSecondsIsIso(duration: string)
    ensures if duration in {"PT1H", "PT6H", "PT12H", "P1D", "P7D", "P30D"}
            then IsoSeconds(duration) == Some(GrantSeconds(duration)) else GrantSeconds(duration) == 60 * 60
  {
    Digits('1', '2');
    Digits('3', '0');
    Digits('6', '0');
    Digits('7', '0');
    assert "PT1H" == "PT" + "1" + "H" && "PT6H" == "PT" + "6" + "H" && "PT12H" == "PT" + "12" + "H";
    assert "P1D" == "P" + "1" + "D" && "P7D" == "P" + "7" + "D" && "P30D" == "P" + "30" + "D";
  }

  function GrantDurationOf(req: Request): string {
    if req.grantDuration.None? || req.grantDuration.value == "" then "PT1H" else req.grantDuration.value
  }

  function PendingSeconds(kind: string): (seconds: int)
    ensures HOUR <= seconds <= DAY
  {
    if kind == "offline" then DAY else HOUR
  }

  predicate ValidRequest(req: Request) {
    && req.app != "" && req.owner != "" && req.fields != []
    && (req.grantDuration.Some? && req.grantDuration.value != "" ==> KnownDuration(req.grantDuration.value))
    && (forall f | f in req.fields :: f.fieldName != "" && f.schemaId != "")
  }

  /** The request lacks an application, an owner or fields, has a field without a name or schema, or asks for a grant
      duration that is not offered. */
  predicate Malformed(req: Request) {
    || req.app == "" || req.owner == "" || |req.fields| == 0
    || (exists i :: 0 <= i < |req.fields| && (req.fields[i].fieldName == "" || req.fields[i].schemaId == ""))
    || (match req.grantDuration
        case None => false
        case Some(duration) => duration !in {"", "PT1H", "PT6H", "PT12H", "P1D", "P7D", "P30D"})
  }

  lemma ValidIffWellFormed(req: Request)
    ensures ValidRequest(req) <==> !Malformed(req)
  {
    if !Malformed(req) {
      forall f | f in req.fields ensures f.fieldName != "" && f.schemaId != "" {
        var i :| 0 <= i < |req.fields| && req.fields[i] == f;
      }
    } else if i :| 0 <= i < |req.fields| && (req.fields[i].fieldName == "" || req.fields[i].schemaId == "") {
      assert req.fields[i] in req.fields;
    }
  }

  // One row

  predicate Same(row: Row, owner: string, app: string) {
    row.owner == owner && row.app == app
  }

  /** The record's deadline has passed. */
  predicate Stale(row: Row, now: int) {
    || (row.status.Pending? && row.pendingExpiresAt.Some? && now > row.pendingExpiresAt.value)
    || (row.status.Approved? && row.grantExpiresAt.Some? && now > row.grantExpiresAt.value)
  }

  /** What a record's columns make of its status at a time: a pending record has expired once its pending deadline has
      passed, an approved one once its grant has ended. */
  function StatusAt(row: Row, now: int): Status {
    match row.status
    case Pending => if row.pendingExpiresAt.Some? && row.pendingExpiresAt.value < now then Expired else Pending
    case Approved => if row.grantExpiresAt.Some? && row.grantExpiresAt.value < now then Expired else Approved
    case ended => ended
  }

  function NewRow(req: Request, now: int): Row {
    var kind := if req.kind.Some? then req.kind.value else "realtime";
    Row(req.owner, req.app, Pending, kind, now, now, Some(now + PendingSeconds(kind)), None, GrantDurationOf(req),
        req.fields, None)
  }

  /** The row after a whole-row write that marks it expired. */
  function MarkedExpired(row: Row): Row {
    row.(status := Expired)
  }

  /** The row after the conditional update that expires it. */
  function PersistedExpired(row: Row, now: int): Row {
    row.(status := Expired, updatedAt := now)
  }

  function Replaced(row: Row, now: int): Row {
    row.(status := Revoked, updatedAt := now, updatedBy := Some(REPLACED_BY))
  }

  /** The row after a portal action, whose grant runs for `duration` from the decision. */
  function Decided(row: Row, action: Action, actor: string, duration: string, now: int): Row {
    var updated := row.(updatedAt := now, updatedBy := Some(actor), pendingExpiresAt := None, status := action.To());
    if action.Approve? then updated.(grantExpiresAt := Some(now + GrantSeconds(duration))) else updated
  }

  /** What the consent engine tells the orchestration engine about a record. */
  datatype View = View(id: nat, status: Status, fields: Option<seq<ConsentField>>)

  function ViewOf(id: nat, row: Row): View {
    View(id, row.status, if row.status.Active() then Some(row.fields) else None)
  }

  /** Whether a view shows exactly the requested fields, in order. */
  method FieldsEqual(shown: Option<seq<ConsentField>>, requested: seq<ConsentField>) returns (same: bool)
    ensures same <==> shown == Some(requested)
  {
    if shown.None? || |shown.value| != |requested| {
      return false;
    }
    for i := 0 to |requested|
      invariant shown.value[..i] == requested[..i]
    {
      if shown.value[i] != requested[i] {
        return false;
      }
    }
    assert shown.value[..|requested|] == shown.value && requested[..|requested|] == requested;
    same := true;
  }

  // The partial unique index

  /** The index on active records has no entry for the pair. */
  predicate NoActive(table: Table, owner: string, app: string) {
    forall id | id in table && Same(table[id], owner, app) :: !table[id].status.Active()
  }

  predicate IndexHolds(table: Table) {
    forall a, b | a in table && b in table && a != b && Same(table[a], table[b].owner, table[b].app) ::
      !(table[a].status.Active() && table[b].status.Active())
  }
}
