/** The PDP's policy table and its decision for an application's required fields. */
module Policy {
  import opened Wrappers
  import opened Strings
  import opened Requests

  datatype Grant = Grant(expiresAt: int, updatedAt: int)

  datatype PolicyRow = PolicyRow(
    id: nat,
    schemaId: string,
    fieldName: string,
    metadata: Metadata,
    allowList: map<string, Grant>,
    createdAt: int,
    updatedAt: int)

  /** The columns that a request for a schema sets. */
  datatype Metadata = Metadata(
    displayName: Option<string>,
    description: Option<string>,
    source: string,
    policyClass: string,
    params: map<string, string>,
    owner: Option<string>)

  datatype Outcome = Allow | ConsentRequired | Expired | Deny

  /** What a policy is evaluated on. */
  datatype Input = Input(app: string, field: RequiredField, policyClass: string, params: map<string, string>,
                         grantExpiresAt: Option<int>, now: int)

  /** Policy evaluation, a failure being a denial. */
  type Engine = Input -> Outcome

  datatype FieldRecord = FieldRecord(
    fieldName: string,
    schemaId: string,
    displayName: Option<string>,
    description: Option<string>,
    owner: Option<string>)

  datatype Decision = Decision(
    consentRequired: seq<FieldRecord>,
    unauthorized: seq<FieldRecord>,
    expired: seq<FieldRecord>,
    appAuthorized: bool,
    accessExpired: bool,
    requiresConsent: bool)

  function LookupKey(schemaId: string, fieldName: string): string {
    schemaId + ":" + fieldName
  }

  function RowKey(row: PolicyRow): string {
    LookupKey(row.schemaId, row.fieldName)
  }

  function SchemasOf(required: seq<RequiredField>): set<string> {
    set f | f in required :: f.schemaId
  }

  /** The row found under a key: the last of those fetched, that is of the requested schemas, with it. */
  function Lookup(rows: seq<PolicyRow>, schemas: set<string>, key: string): Option<PolicyRow> {
    if rows == [] then None
    else
      var last := rows[|rows| - 1];
      if last.schemaId in schemas && RowKey(last) == key then Some(last) else Lookup(rows[..|rows| - 1], schemas, key)
  }

  function Evaluated(row: PolicyRow, app: string, now: int): Input {
    Input(app, RequiredField(row.schemaId, row.fieldName), row.metadata.policyClass, row.metadata.params,
          if app in row.allowList then Some(row.allowList[app].expiresAt) else None, now)
  }

  function RecordOf(row: PolicyRow): FieldRecord {
    FieldRecord(row.fieldName, row.schemaId, row.metadata.displayName, row.metadata.description, row.metadata.owner)
  }

  /** The decision for the `i`-th required field, on the row found for it. */
  function DecisionOn(rows: seq<PolicyRow>, engine: Engine, app: string, required: seq<RequiredField>,
                      clock: nat -> int, i: nat): Option<(PolicyRow, Outcome)>
    requires i < |required|
  {
    match Lookup(rows, SchemasOf(required), LookupKey(required[i].schemaId, required[i].fieldName))
    case None => None
    case Some(row) => Some((row, engine(Evaluated(row, app, clock(i)))))
  }

  /** The fields, among the first `n`, decided with `outcome`, in order. */
  function FieldsWith(rows: seq<PolicyRow>, engine: Engine, app: string, required: seq<RequiredField>,
                      clock: nat -> int, outcome: Outcome, n: nat): seq<FieldRecord>
    requires n <= |required|
  {
    if n == 0 then []
    else
      var front := FieldsWith(rows, engine, app, required, clock, outcome, n - 1);
      match DecisionOn(rows, engine, app, required, clock, n - 1)
      case Some((row, decided)) => if decided == outcome then front + [RecordOf(row)] else front
      case None => front
  }

  /** Decides every required field. A field without a row fails the request. */
  method GetPolicyDecision(rows: seq<PolicyRow>, engine: Engine, app: string, required: seq<RequiredField>,
                           clock: nat -> int) returns (r: Result<Decision, RequiredField>)
    ensures r.Ok? <==> forall i | 0 <= i < |required| :: DecisionOn(rows, engine, app, required, clock, i).Some?
    ensures r.Ok? ==>
              && r.value.consentRequired == FieldsWith(rows, engine, app, required, clock, ConsentRequired, |required|)
              && r.value.unauthorized == FieldsWith(rows, engine, app, required, clock, Deny, |required|)
              && r.value.expired == FieldsWith(rows, engine, app, required, clock, Expired, |required|)
              && (r.value.appAuthorized <==> r.value.unauthorized == [])
              && (r.value.accessExpired <==> r.value.expired != [])
              && (r.value.requiresConsent <==> r.value.consentRequired != [])
  {
    var schemas := SchemasOf(required);
    var byKey: map<string, PolicyRow> := map[];
    for k := 0 to |rows|
      invariant forall key :: (key in byKey <==> Lookup(rows[..k], schemas, key).Some?)
                              && (key in byKey ==> Lookup(rows[..k], schemas, key) == Some(byKey[key]))
    {
      assert rows[..k + 1][..k] == rows[..k];
      if rows[k].schemaId in schemas {
        byKey := byKey[RowKey(rows[k]) := rows[k]];
      }
    }
    assert rows[..|rows|] == rows;

    var consentRequired, unauthorized, expired := [], [], [];
    for i := 0 to |required|
      invariant forall j | 0 <= j < i :: DecisionOn(rows, engine, app, required, clock, j).Some?
      invariant consentRequired == FieldsWith(rows, engine, app, required, clock, ConsentRequired, i)
      invariant unauthorized == FieldsWith(rows, engine, app, required, clock, Deny, i)
      invariant expired == FieldsWith(rows, engine, app, required, clock, Expired, i)
    {
      var key := LookupKey(required[i].schemaId, required[i].fieldName);
      if key !in byKey {
        assert DecisionOn(rows, engine, app, required, clock, i).None?;
        return Err(required[i]);
      }
      var row := byKey[key];
      match engine(Evaluated(row, app, clock(i))) {
        case Allow =>
        case ConsentRequired => consentRequired := consentRequired + [RecordOf(row)];
        case Expired => expired := expired + [RecordOf(row)];
        case Deny => unauthorized := unauthorized + [RecordOf(row)];
      }
    }
    r := Ok(Decision(consentRequired, unauthorized, expired, unauthorized == [], expired != [], consentRequired != []));
  }

  // What a decision says

  predicate DecidedAs(rows: seq<PolicyRow>, engine: Engine, app: string, required: seq<RequiredField>,
                      clock: nat -> int, outcome: Outcome, i: nat)
    requires i < |required|
  {
    var d := DecisionOn(rows, engine, app, required, clock, i);
    d.Some? && d.value.1 == outcome
  }

  /** The list of an outcome holds exactly the fields decided with it. */
  lemma {:induction false} ListedIffDecided(rows: seq<PolicyRow>, engine: Engine, app: string,
                                            required: seq<RequiredField>, clock: nat -> int, outcome: Outcome, n: nat,
                                            field: FieldRecord)
    requires n <= |required|
    ensures field in FieldsWith(rows, engine, app, required, clock, outcome, n) <==>
            exists i :: 0 <= i < n && DecidedAs(rows, engine, app, required, clock, outcome, i) &&
                        RecordOf(DecisionOn(rows, engine, app, required, clock, i).value.0) == field
  {
    if n > 0 {
      ListedIffDecided(rows, engine, app, required, clock, outcome, n - 1, field);
    }
  }

  lemma {:induction false} NoneListed(rows: seq<PolicyRow>, engine: Engine, app: string, required: seq<RequiredField>,
                                      clock: nat -> int, outcome: Outcome, n: nat)
    requires n <= |required|
    ensures FieldsWith(rows, engine, app, required, clock, outcome, n) == [] <==>
            forall i | 0 <= i < n :: !DecidedAs(rows, engine, app, required, clock, outcome, i)
  {
    if n > 0 {
      var latest := DecidedAs(rows, engine, app, required, clock, outcome, n - 1);
      NoneListed(rows, engine, app, required, clock, outcome, n - 1);
    }
  }

  /** Authorized and not expired says that every field was decided allowed or consent-required. */
  lemma AuthorizedIffDecided(rows: seq<PolicyRow>, engine: Engine, app: string, required: seq<RequiredField>,
                             clock: nat -> int)
    requires forall i | 0 <= i < |required| :: DecisionOn(rows, engine, app, required, clock, i).Some?
    ensures FieldsWith(rows, engine, app, required, clock, Deny, |required|) == []
            && FieldsWith(rows, engine, app, required, clock, Expired, |required|) == [] <==>
            forall i | 0 <= i < |required| ::
              || DecidedAs(rows, engine, app, required, clock, Allow, i)
              || DecidedAs(rows, engine, app, required, clock, ConsentRequired, i)
  {
    NoneListed(rows, engine, app, required, clock, Deny, |required|);
    NoneListed(rows, engine, app, required, clock, Expired, |required|);
    forall i | 0 <= i < |required|
      ensures !DecidedAs(rows, engine, app, required, clock, Deny, i) &&
              !DecidedAs(rows, engine, app, required, clock, Expired, i) <==>
              DecidedAs(rows, engine, app, required, clock, Allow, i) ||
              DecidedAs(rows, engine, app, required, clock, ConsentRequired, i)
    {
    }
  }

  // Whose row is it?

  predicate IsRowOf(row: PolicyRow, f: RequiredField) {
    row.schemaId == f.schemaId && row.fieldName == f.fieldName
  }

  /** Another row of the requested schemas joins to the same key. */
  predicate Clashes(rows: seq<PolicyRow>, schemas: set<string>, f: RequiredField) {
    exists row | row in rows ::
      row.schemaId in schemas && RowKey(row) == LookupKey(f.schemaId, f.fieldName) && !IsRowOf(row, f)
  }

  lemma {:induction false} LookupMember(rows: seq<PolicyRow>, schemas: set<string>, key: string)
    ensures var found := Lookup(rows, schemas, key);
            && (found.Some? ==> found.value in rows && found.value.schemaId in schemas && RowKey(found.value) == key)
            && (found.None? ==> forall row | row in rows :: !(row.schemaId in schemas && RowKey(row) == key))
  {
    if rows != [] {
      LookupMember(rows[..|rows| - 1], schemas, key);
      assert rows == rows[..|rows| - 1] + [rows[|rows| - 1]];
    }
  }

  /** A field is decided on its own row, or found missing, in whatever order the rows are fetched, exactly when no other
      row of the requested schemas joins to the same key: the key is not injective, schema "a:b" with field "c" and
      schema "a" with field "b:c" sharing one. */
  lemma OwnRowIffNoClash(rows: seq<PolicyRow>, schemas: set<string>, f: RequiredField)
    requires f.schemaId in schemas
    ensures (forall order | Reorders(order, rows) :: FindsOwnRow(order, schemas, f)) <==> !Clashes(rows, schemas, f)
  {
    if Clashes(rows, schemas, f) {
      var row :| row in rows && row.schemaId in schemas && RowKey(row) == LookupKey(f.schemaId, f.fieldName)
                 && !IsRowOf(row, f);
      var order := FetchedLast(rows, schemas, row);
      assert !FindsOwnRow(order, schemas, f);
    } else {
      forall order | Reorders(order, rows) ensures FindsOwnRow(order, schemas, f) {
        LookupMember(order, schemas, LookupKey(f.schemaId, f.fieldName));
        forall row | row in order ensures row in rows {
          assert row in multiset(order);
        }
      }
    }
  }

  /** An order of fetching that leaves the key to a given row. */
  lemma FetchedLast(rows: seq<PolicyRow>, schemas: set<string>, row: PolicyRow) returns (order: seq<PolicyRow>)
    requires row in rows && row.schemaId in schemas
    ensures Reorders(order, rows) && Lookup(order, schemas, RowKey(row)) == Some(row)
  {
    var k :| 0 <= k < |rows| && rows[k] == row;
    order := rows[..k] + rows[k + 1..] + [row];
    assert rows == rows[..k] + [row] + rows[k + 1..];
  }

  predicate Reorders(order: seq<PolicyRow>, rows: seq<PolicyRow>) {
    multiset(order) == multiset(rows)
  }

  predicate FindsOwnRow(rows: seq<PolicyRow>, schemas: set<string>, f: RequiredField) {
    match Lookup(rows, schemas, LookupKey(f.schemaId, f.fieldName))
    case Some(row) => IsRowOf(row, f)
    case None => forall row | row in rows :: !IsRowOf(row, f)
  }

  /** A field of schema "a:b" named "c" clashes with the field of schema "a" named "b:c", which is then decided on a row
      that is not its own. */
  lemma ColonsClash(row: PolicyRow)
    requires IsRowOf(row, RequiredField("a:b", "c"))
    ensures var schemas, f := {"a", "a:b"}, RequiredField("a", "b:c");
            Clashes([row], schemas, f) && Lookup([row], schemas, LookupKey(f.schemaId, f.fieldName)) == Some(row)
  {
    assert RowKey(row) == "a:b:c" == LookupKey("a", "b:c");
    assert row in [row];
  }

  /** Schema ids without colons never clash. */
  lemma ColonFreeNeverClashes(rows: seq<PolicyRow>, schemas: set<string>, f: RequiredField)
    requires f.schemaId in schemas && forall s | s in schemas :: Without(s, ':')
    ensures !Clashes(rows, schemas, f)
  {
    forall row | row in rows && row.schemaId in schemas && RowKey(row) == LookupKey(f.schemaId, f.fieldName)
      ensures IsRowOf(row, f)
    {
      KeyInjective(row.schemaId, row.fieldName, f.schemaId, f.fieldName);
    }
  }

  lemma KeyInjective(a: string, x: string, b: string, y: string)
    requires Without(a, ':') && Without(b, ':') && LookupKey(a, x) == LookupKey(b, y)
    ensures a == b && x == y
  {
    FirstPart(a, x);
    FirstPart(b, y);
    assert x == LookupKey(a, x)[|a| + 1..] && y == LookupKey(b, y)[|b| + 1..];
  }

  lemma FirstPart(schemaId: string, fieldName: string)
    requires Without(schemaId, ':')
    ensures SplitOn(LookupKey(schemaId, fieldName), ':')[0] == schemaId
  {
    SplitConcat(schemaId, fieldName, ':');
    SplitAtom(schemaId, ':');
  }
}
