/** The access gate: what must hold before a provider is called. */
module Gate {
  import opened Wrappers
  import Json
  import Fields
  import Document
  import Collection
  import Normalize
  import Builder
  import opened Arguments
  import opened Operation
  import opened Plan
  import opened Requests
  import Planner
  import opened Policy
  import opened Decisions
  import Consent
  import opened ConsentService
  import ConsentEngine
  import Paths
  import Printing

  /** How a remote service behaves for one call. */
  datatype Link = Answering | Failing | Silent

  datatype Pdp = Pdp(rows: seq<PolicyRow>, engine: Policy.Engine, clock: nat -> int, link: Link)

  datatype Refusal =
    | InvalidQuery(error: Document.BuildError)
    | MissingEntityIdentifier
    | AmbiguousEntityIdentifier
    | NoPlan(planError: PlanError)
    | PdpError
    | PdpNoResponse
    | PdpNotAllowed
    | CeError
    | CeNoResponse
    | CeNotApproved
    | NoServiceQueries

  /** The consent engine as the orchestration engine reaches it, with the id and time a new record would get. */
  datatype Ce = Ce(engine: ConsentEngine.Engine, link: Link, newId: nat, now: int)

  /** A query is refused, or its plan's provider operations are called. */
  datatype Verdict = Refused(reason: Refusal) | Called(fields: seq<Fields.Field>, plan: PlanView, owner: string)

  // Policy

  /** Every required field is decided allowed or consent-required. The PDP refuses requests without an application or
      without fields. */
  predicate PolicyAllows(pdp: Pdp, app: string, required: seq<RequiredField>) {
    && pdp.link == Answering && app != "" && required != []
    && forall i | 0 <= i < |required| ::
         || DecidedAs(pdp.rows, pdp.engine, app, required, pdp.clock, Allow, i)
         || DecidedAs(pdp.rows, pdp.engine, app, required, pdp.clock, ConsentRequired, i)
  }

  function NeedingConsent(pdp: Pdp, app: string, required: seq<RequiredField>): seq<FieldRecord> {
    FieldsWith(pdp.rows, pdp.engine, app, required, pdp.clock, ConsentRequired, |required|)
  }

  /** Why the policy check refuses: no answer; a field that is denied or whose access has expired; or a failed call, an
      empty question or a field without a policy row. */
  predicate PolicyRefuses(pdp: Pdp, app: string, required: seq<RequiredField>, reason: Refusal) {
    match reason
    case PdpNoResponse => pdp.link == Silent
    case PdpNotAllowed =>
      && pdp.link == Answering && app != "" && required != []
      && (forall i | 0 <= i < |required| :: DecisionOn(pdp.rows, pdp.engine, app, required, pdp.clock, i).Some?)
      && (exists i :: 0 <= i < |required| && (DecidedAs(pdp.rows, pdp.engine, app, required, pdp.clock, Deny, i) ||
                                              DecidedAs(pdp.rows, pdp.engine, app, required, pdp.clock, Expired, i)))
    case PdpError =>
      || pdp.link == Failing
      || (pdp.link == Answering &&
          (app == "" || required == [] ||
           exists i :: 0 <= i < |required| && DecisionOn(pdp.rows, pdp.engine, app, required, pdp.clock, i).None?))
    case _ => false
  }

  method CheckPolicy(app: string, required: seq<RequiredField>, pdp: Option<Pdp>)
    returns (r: Result<Option<Decision>, Refusal>)
    ensures pdp.None? ==> r == Ok(None)
    ensures pdp.Some? ==> (r.Ok? <==> PolicyAllows(pdp.value, app, required))
    ensures pdp.Some? && r.Err? ==> PolicyRefuses(pdp.value, app, required, r.error)
    ensures pdp.Some? && r.Ok? ==>
              && r.value.Some? && r.value.value.consentRequired == NeedingConsent(pdp.value, app, required)
              && (r.value.value.requiresConsent <==> r.value.value.consentRequired != [])
  {
    if pdp.None? {
      return Ok(None);
    }
    var p := pdp.value;
    if p.link == Failing {
      return Err(PdpError);
    }
    if p.link == Silent {
      return Err(PdpNoResponse);
    }
    if app == "" || required == [] {
      return Err(PdpError);
    }
    var decided := GetPolicyDecision(p.rows, p.engine, app, required, p.clock);
    if decided.Err? {
      var i :| 0 <= i < |required| && DecisionOn(p.rows, p.engine, app, required, p.clock, i).None?;
      assert !DecidedAs(p.rows, p.engine, app, required, p.clock, Allow, i);
      return Err(PdpError);
    }
    AuthorizedIffDecided(p.rows, p.engine, app, required, p.clock);
    var decision := decided.value;
    if !decision.appAuthorized || decision.accessExpired {
      NoneListed(p.rows, p.engine, app, required, p.clock, Deny, |required|);
      NoneListed(p.rows, p.engine, app, required, p.clock, Expired, |required|);
      return Err(PdpNotAllowed);
    }
    r := Ok(Some(decision));
  }

  // Consent

  function ConsentFieldOf(f: FieldRecord): Consent.ConsentField {
    Consent.ConsentField(f.fieldName, f.schemaId, f.displayName, f.description,
                         if f.owner.Some? then f.owner.value else "citizen")
  }

  function ConsentFieldsOf(fields: seq<FieldRecord>): seq<Consent.ConsentField> {
    seq(|fields|, i requires 0 <= i < |fields| => ConsentFieldOf(fields[i]))
  }

  function RequestFor(app: string, owner: string, fields: seq<FieldRecord>): Consent.Request {
    Consent.Request(app, owner, ConsentFieldsOf(fields), None, Some("realtime"))
  }

  /** The field that consent is asked for is the row's, its owner a citizen unless the row names another. */
  predicate AsksFor(field: Consent.ConsentField, row: PolicyRow) {
    && field.fieldName == row.fieldName && field.schemaId == row.schemaId
    && field.displayName == row.metadata.displayName && field.description == row.metadata.description
    && match row.metadata.owner
       case Some(owner) => field.owner == owner
       case None => field.owner == "citizen"
  }

  /** What consent is asked for, on the policy table's columns: the owner's, for the application and exactly the fields
      decided to need it, as a realtime request that leaves the duration open. */
  lemma ConsentAskedFor(pdp: Pdp, app: string, required: seq<RequiredField>, owner: string, field: Consent.ConsentField)
    ensures var req := RequestFor(app, owner, NeedingConsent(pdp, app, required));
            && req.app == app && req.owner == owner && req.kind == Some("realtime") && req.grantDuration == None
            && (field in req.fields <==>
                  exists i :: 0 <= i < |required| &&
                    DecidedAs(pdp.rows, pdp.engine, app, required, pdp.clock, ConsentRequired, i) &&
                    AsksFor(field, DecisionOn(pdp.rows, pdp.engine, app, required, pdp.clock, i).value.0))
  {
    var needing := NeedingConsent(pdp, app, required);
    var fields := ConsentFieldsOf(needing);
    if i :| 0 <= i < |required| && DecidedAs(pdp.rows, pdp.engine, app, required, pdp.clock, ConsentRequired, i)
            && AsksFor(field, DecisionOn(pdp.rows, pdp.engine, app, required, pdp.clock, i).value.0) {
      var record := RecordOf(DecisionOn(pdp.rows, pdp.engine, app, required, pdp.clock, i).value.0);
      ListedIffDecided(pdp.rows, pdp.engine, app, required, pdp.clock, ConsentRequired, |required|, record);
      var j :| 0 <= j < |needing| && needing[j] == record;
      assert fields[j] == field;
    }
    if j :| 0 <= j < |fields| && fields[j] == field {
      ListedOnColumns(pdp.rows, pdp.engine, app, required, pdp.clock, ConsentRequired, needing[j]);
      assert needing[j] in needing;
      var i :| 0 <= i < |required| && DecidedAs(pdp.rows, pdp.engine, app, required, pdp.clock, ConsentRequired, i)
               && Tells(needing[j], DecisionOn(pdp.rows, pdp.engine, app, required, pdp.clock, i).value.0);
      assert AsksFor(field, DecisionOn(pdp.rows, pdp.engine, app, required, pdp.clock, i).value.0);
    }
  }

  /** The latest record of the owner and application is an approved, unexpired consent to exactly these fields. */
  ghost predicate ConsentShown(table: Consent.Table, req: Consent.Request, now: int) {
    exists id :: IsLatest(table, req.owner, req.app, id) && ConsentHeld(table, id, req, now)
  }

  /** So is every record that a query for the latest one may return. */
  ghost predicate ConsentSure(table: Consent.Table, req: Consent.Request, now: int) {
    && ConsentShown(table, req, now)
    && forall id | IsLatest(table, req.owner, req.app, id) :: ConsentHeld(table, id, req, now)
  }

  /** Records of one pair created at different times leave no choice, and as long as calls come one at a time any
      consent that is held at all is the latest record. */
  lemma ShownIsSure(table: Consent.Table, req: Consent.Request, now: int)
    ensures TimesDistinct(table) ==> (ConsentShown(table, req, now) <==> ConsentSure(table, req, now))
    ensures Sound(table) ==> (ConsentSure(table, req, now) <==> exists id :: ConsentHeld(table, id, req, now))
  {
    if TimesDistinct(table) && ConsentShown(table, req, now) {
      var held :| IsLatest(table, req.owner, req.app, held) && ConsentHeld(table, held, req, now);
      forall id | IsLatest(table, req.owner, req.app, id) ensures id == held {
        assert Consent.Same(table[id], table[held].owner, table[held].app);
      }
    }
    if Sound(table) {
      if held :| ConsentHeld(table, held, req, now) {
        assert IsLatest(table, table[held].owner, table[held].app, held);
      }
    }
  }

  /** The consent engine can be asked about these fields. */
  ghost predicate Askable(ce: Option<Ce>, app: string, owner: string, fields: seq<FieldRecord>) {
    fields != [] && ce.Some? && ce.value.link == Answering && Consent.ValidRequest(RequestFor(app, owner, fields))
  }

  /** The table holds a pending request of the owner for the application and exactly these fields. */
  predicate Awaits(table: Consent.Table, req: Consent.Request) {
    exists id :: id in table && table[id].owner == req.owner && table[id].app == req.app
                 && table[id].fields == req.fields && table[id].status == Consent.Pending
  }

  /** Why the consent check refuses, the table having been `before` and being `after`: nothing to ask for; no answer; a
      consent that is not approved, which now awaits its owner's decision; or no engine, a failed call or a creation
      that fails, as it does on a sound table only for a malformed request. */
  ghost predicate ConsentRefuses(ce: Option<Ce>, req: Consent.Request, before: Consent.Table, after: Consent.Table,
                                 reason: Refusal) {
    match reason
    case PdpError => req.fields == [] && after == before
    case CeNoResponse => ce.Some? && ce.value.link == Silent && after == before
    case CeNotApproved =>
      && ce.Some? && ce.value.link == Answering && !ConsentSure(before, req, ce.value.now) && Awaits(after, req)
    case CeError =>
      || (ce.None? && after == before)
      || (ce.Some? && ce.value.link == Failing && after == before)
      || (ce.Some? && ce.value.link == Answering &&
          (Sound(before) && (forall id | id in before :: before[id].createdAt < ce.value.now) ==>
             Consent.Malformed(req)))
    case _ => false
  }

  /** Passes only if consent is held, whatever interleaved calls have left in the table, and does pass if every record
      the query for the latest one may return is that consent. */
  method CheckConsent(app: string, owner: string, fields: seq<FieldRecord>, ce: Option<Ce>)
    returns (refused: Option<Refusal>)
    requires ce.Some? ==> ce.value.newId !in ce.value.engine.table
    modifies if ce.Some? then {ce.value.engine} else {}
    ensures refused.None? ==>
              && Askable(ce, app, owner, fields)
              && ConsentShown(old(ce.value.engine.table), RequestFor(app, owner, fields), ce.value.now)
              && ce.value.engine.table == old(ce.value.engine.table)
    ensures Askable(ce, app, owner, fields)
            && ConsentSure(old(ce.value.engine.table), RequestFor(app, owner, fields), ce.value.now)
            ==> refused.None?
    ensures refused.Some? ==>
              ConsentRefuses(ce, RequestFor(app, owner, fields), if ce.Some? then old(ce.value.engine.table) else map[],
                             if ce.Some? then ce.value.engine.table else map[], refused.value)
  {
    if fields == [] {
      return Some(PdpError);
    }
    if ce.None? {
      return Some(CeError);
    }
    var requested: seq<Consent.ConsentField> := [];
    for i := 0 to |fields|
      invariant requested == ConsentFieldsOf(fields[..i])
    {
      requested := requested + [ConsentFieldOf(fields[i])];
      assert fields[..i + 1] == fields[..i] + [fields[i]];
    }
    assert fields[..|fields|] == fields;
    if ce.value.link == Failing {
      return Some(CeError);
    }
    if ce.value.link == Silent {
      return Some(CeNoResponse);
    }
    var req := Consent.Request(app, owner, requested, None, Some("realtime"));
    ghost var before := ce.value.engine.table;
    var view, latest := ce.value.engine.Create(req, ce.value.newId, ce.value.now);
    ApprovedIffLatestHeld(before, req, latest, ce.value.newId, ce.value.now);
    if view.Err? {
      return Some(CeError);
    }
    if view.value.status != Consent.Approved {
      return Some(CeNotApproved);
    }
    refused := None;
  }

  // The whole gate

  /** The PDP, if there is one, allows the fields, and what consent they need is given. */
  ghost predicate Authorized(app: string, required: seq<RequiredField>, pdp: Option<Pdp>, consented: bool) {
    pdp.Some? ==>
      PolicyAllows(pdp.value, app, required) && (NeedingConsent(pdp.value, app, required) != [] ==> consented)
  }

  /** Consent to the fields needing it is what the consent engine shows, or is sure to show. */
  ghost predicate Consented(app: string, required: seq<RequiredField>, owner: string, pdp: Option<Pdp>, ce: Option<Ce>,
                            consents: Consent.Table, surely: bool) {
    pdp.Some? ==>
      var fields := NeedingConsent(pdp.value, app, required);
      && Askable(ce, app, owner, fields)
      && if surely then ConsentSure(consents, RequestFor(app, owner, fields), ce.value.now)
         else ConsentShown(consents, RequestFor(app, owner, fields), ce.value.now)
  }

  /** The policy check refuses, the table of consents staying as it was; or it passes, and the consent check refuses. */
  ghost predicate AccessRefused(app: string, required: seq<RequiredField>, owner: string, pdp: Pdp, ce: Option<Ce>,
                                before: Consent.Table, after: Consent.Table, reason: Refusal) {
    if PolicyAllows(pdp, app, required) then
      var fields := NeedingConsent(pdp, app, required);
      fields != [] && ConsentRefuses(ce, RequestFor(app, owner, fields), before, after, reason)
    else PolicyRefuses(pdp, app, required, reason) && after == before
  }

  method AuthorizeAccess(app: string, required: seq<RequiredField>, owner: string, pdp: Option<Pdp>, ce: Option<Ce>)
    returns (refused: Option<Refusal>)
    requires ce.Some? ==> ce.value.newId !in ce.value.engine.table
    modifies if ce.Some? then {ce.value.engine} else {}
    ensures var consents := if ce.Some? then old(ce.value.engine.table) else map[];
            && (refused.None? ==>
                  Authorized(app, required, pdp, Consented(app, required, owner, pdp, ce, consents, false)))
            && (Authorized(app, required, pdp, Consented(app, required, owner, pdp, ce, consents, true)) ==>
                  refused.None?)
    ensures refused.None? && ce.Some? ==> ce.value.engine.table == old(ce.value.engine.table)
    ensures refused.Some? ==>
              pdp.Some? && AccessRefused(app, required, owner, pdp.value, ce,
                                         if ce.Some? then old(ce.value.engine.table) else map[],
                                         if ce.Some? then ce.value.engine.table else map[], refused.value)
  {
    var decision := CheckPolicy(app, required, pdp);
    if decision.Err? {
      return Some(decision.error);
    }
    if decision.value.Some? && decision.value.value.requiresConsent {
      refused := CheckConsent(app, owner, decision.value.value.consentRequired, ce);
    } else {
      refused := None;
    }
  }

  /** What the gate demands of a normalized query whose data owner is `owner`. */
  ghost predicate Cleared(plan: PlanView, app: string, owner: string, pdp: Option<Pdp>, ce: Option<Ce>,
                          consents: Consent.Table, surely: bool) {
    && plan.fetches != []
    && Authorized(app, RequiredFields(plan), pdp,
                  Consented(app, RequiredFields(plan), owner, pdp, ce, consents, surely))
  }

  /** As long as consent records were created at different times, the two demands are one. */
  lemma ClearedIsSure(plan: PlanView, app: string, owner: string, pdp: Option<Pdp>, ce: Option<Ce>,
                      consents: Consent.Table)
    requires TimesDistinct(consents)
    ensures Cleared(plan, app, owner, pdp, ce, consents, true) <==> Cleared(plan, app, owner, pdp, ce, consents, false)
  {
    if pdp.Some? && ce.Some? {
      var fields := NeedingConsent(pdp.value, app, RequiredFields(plan));
      ShownIsSure(consents, RequestFor(app, owner, fields), ce.value.now);
    }
  }

  /** Why a query is refused: it does not normalize; no value identifies the owner, or several do; it has no plan;
      access is refused; or nothing is left to ask a provider for. */
  ghost predicate QueryRefused(built: Result<seq<Fields.Field>, Document.BuildError>,
                               mappings: seq<Option<ArgMapping>>, marshal: Json.Json -> string, identifier: string,
                               app: string, pdp: Option<Pdp>, ce: Option<Ce>, before: Consent.Table,
                               after: Consent.Table, reason: Refusal) {
    match built
    case Err(error) => reason == InvalidQuery(error) && after == before
    case Ok(fields) =>
      var owners := OwnerValues(fields, identifier);
      if owners == {} then reason == MissingEntityIdentifier && after == before
      else if exists v, w | v in owners && w in owners :: v != w then
        reason == AmbiguousEntityIdentifier && after == before
      else
        var owner :| owner in owners;
        match PlanFor(marshal, BindArguments(mappings, fields), fields)
        case Err(error) => reason == NoPlan(error) && after == before
        case Ok(plan) =>
          || (pdp.Some? && AccessRefused(app, RequiredFields(plan), owner, pdp.value, ce, before, after, reason))
          || (reason == NoServiceQueries && plan.fetches == [] && after == before)
  }

  /** Providers are called only if the query normalizes, every non-empty string given for the identifier argument is
      the same one, the query is planned into at least one provider operation, the PDP (if there is one) decides every
      required field allowed or consent-required, and for the fields that need it the consent engine holds, as the
      latest record of that owner and application, an approved, unexpired consent to exactly those fields. That is so
      for every table of consents that interleaved calls may leave; and they are called if the table leaves no other
      record to find. */
  method FederateQuery(c: Document.Context, ghost rank: string -> nat, query: seq<Document.Selection>,
                       mappings: seq<Option<ArgMapping>>, marshal: Json.Json -> string, identifier: string, app: string,
                       pdp: Option<Pdp>, ce: Option<Ce>) returns (verdict: Verdict)
    requires Collection.Ranked(c, rank)
    requires ce.Some? ==> ce.value.newId !in ce.value.engine.table
    modifies if ce.Some? then {ce.value.engine} else {}
    ensures verdict.Called? ==>
              && Normalize.Build(c, rank, "Query", [query], [], []) == Ok(verdict.fields)
              && OwnerValues(verdict.fields, identifier) == {verdict.owner}
              && PlanFor(marshal, BindArguments(mappings, verdict.fields), verdict.fields) == Ok(verdict.plan)
              && Cleared(verdict.plan, app, verdict.owner, pdp, ce,
                         if ce.Some? then old(ce.value.engine.table) else map[], false)
              && (ce.Some? ==> ce.value.engine.table == old(ce.value.engine.table))
    ensures forall fields, plan, owner ::
              && Normalize.Build(c, rank, "Query", [query], [], []) == Ok(fields)
              && OwnerValues(fields, identifier) == {owner}
              && PlanFor(marshal, BindArguments(mappings, fields), fields) == Ok(plan)
              && Cleared(plan, app, owner, pdp, ce, if ce.Some? then old(ce.value.engine.table) else map[], true)
              ==> verdict == Called(fields, plan, owner)
    ensures verdict.Refused? ==>
              QueryRefused(Normalize.Build(c, rank, "Query", [query], [], []), mappings, marshal, identifier, app, pdp,
                           ce, if ce.Some? then old(ce.value.engine.table) else map[],
                           if ce.Some? then ce.value.engine.table else map[], verdict.reason)
  {
    var built := Builder.BuildFields(c, rank, "Query", [query], [], []);
    if built.Err? {
      return Refused(InvalidQuery(built.error));
    }
    var fields := built.value;
    var owner := DataOwnerID(fields, identifier);
    if owner.Err? {
      return Refused(if owner.error == MissingIdentifier then MissingEntityIdentifier else AmbiguousEntityIdentifier);
    }
    var planned := PlanFor(marshal, BindArguments(mappings, fields), fields);
    if planned.Err? {
      return Refused(NoPlan(planned.error));
    }
    var required := Planner.CollectRequired(planned.value.fetches);
    assert required == RequiredFields(planned.value);
    var refused := AuthorizeAccess(app, required, owner.value, pdp, ce);
    if refused.Some? {
      return Refused(refused.value);
    }
    if planned.value.fetches == [] {
      return Refused(NoServiceQueries);
    }
    verdict := Called(fields, planned.value, owner.value);
  }

  /** The field was decided on its own row: allowed, or requiring a consent that names it. */
  ghost predicate DecidedFor(pdp: Pdp, app: string, needing: seq<FieldRecord>, f: RequiredField, row: PolicyRow,
                             now: int) {
    && row in pdp.rows && row.schemaId == f.schemaId && row.fieldName == f.fieldName
    && exists input :: AskedAbout(input, row, app, now) &&
         match pdp.engine(input)
         case Allow => true
         case ConsentRequired => exists field :: field in ConsentFieldsOf(needing) && AsksFor(field, row)
         case _ => false
  }

  /** Every requested path was decided: when the policy allows a plan, every path a provider operation requests was
      decided on its own row of the policy table, if no other row clashes with it, and if that needs consent, the
      consent that is asked for names it. */
  lemma EveryRequestIsDecided(pdp: Pdp, app: string, plan: PlanView, f: FetchView, path: string)
    requires PolicyAllows(pdp, app, RequiredFields(plan))
    requires f in plan.fetches && path in f.fields
    requires !Clashes(pdp.rows, SchemasOf(RequiredFields(plan)), RequiredField(f.schemaId, path))
    ensures Decided(pdp, app, plan, RequiredField(f.schemaId, path))
  {
    RequiredIsRequested(plan, f.schemaId, path);
    RequiredIsDecided(pdp, app, plan, RequiredField(f.schemaId, path));
  }

  /** A decision was made for the field that lets it be read. */
  ghost predicate Decided(pdp: Pdp, app: string, plan: PlanView, field: RequiredField) {
    exists row, now :: DecidedFor(pdp, app, NeedingConsent(pdp, app, RequiredFields(plan)), field, row, now)
  }

  lemma RequiredIsDecided(pdp: Pdp, app: string, plan: PlanView, field: RequiredField)
    requires PolicyAllows(pdp, app, RequiredFields(plan)) && field in RequiredFields(plan)
    requires !Clashes(pdp.rows, SchemasOf(RequiredFields(plan)), field)
    ensures Decided(pdp, app, plan, field)
  {
    var required := RequiredFields(plan);
    var i :| 0 <= i < |required| && required[i] == field;
    assert DecidedAs(pdp.rows, pdp.engine, app, required, pdp.clock, Allow, i) ||
           DecidedAs(pdp.rows, pdp.engine, app, required, pdp.clock, ConsentRequired, i);
    var row := DecisionOn(pdp.rows, pdp.engine, app, required, pdp.clock, i).value.0;
    LookupMember(pdp.rows, SchemasOf(required), LookupKey(field.schemaId, field.fieldName));
    if DecidedAs(pdp.rows, pdp.engine, app, required, pdp.clock, ConsentRequired, i) {
      var needing := NeedingConsent(pdp, app, required);
      ListedIffDecided(pdp.rows, pdp.engine, app, required, pdp.clock, ConsentRequired, |required|, RecordOf(row));
      var j :| 0 <= j < |needing| && needing[j] == RecordOf(row);
      assert ConsentFieldsOf(needing)[j] == ConsentFieldOf(RecordOf(row)) && AsksFor(ConsentFieldsOf(needing)[j], row);
    }
    assert AskedAbout(Evaluated(row, app, pdp.clock(i)), row, app, pdp.clock(i));
    assert DecidedFor(pdp, app, NeedingConsent(pdp, app, required), field, row, pdp.clock(i));
  }

  /** What is sent was decided: when a query is cleared and an operation's arguments lead to requested paths, every
      leaf of the operation as it is printed was decided on its own row, unless another row clashes with it. */
  lemma EverySentLeafIsDecided(marshal: Json.Json -> string, bindings: seq<Binding>, fields: seq<Fields.Field>,
                               app: string, owner: string, pdp: Pdp, ce: Option<Ce>, consents: Consent.Table,
                               surely: bool, f: FetchView, q: seq<string>)
    requires PlanFor(marshal, bindings, fields).Ok?
    requires Cleared(PlanFor(marshal, bindings, fields).value, app, owner, Some(pdp), ce, consents, surely)
    requires f in PlanFor(marshal, bindings, fields).value.fetches && Printing.Lead(f.args, f.fields)
    requires Printing.PrintedLeaf(f.fields, f.args, q)
    ensures exists field: RequiredField ::
              && field.schemaId == f.schemaId && Paths.Split(field.fieldName) == q
              && field in RequiredFields(PlanFor(marshal, bindings, fields).value)
              && (!Clashes(pdp.rows, SchemasOf(RequiredFields(PlanFor(marshal, bindings, fields).value)), field) ==>
                    Decided(pdp, app, PlanFor(marshal, bindings, fields).value, field))
  {
    var plan := PlanFor(marshal, bindings, fields).value;
    PrintedLeavesAreChecked(marshal, bindings, fields, f);
    var field :| field in RequiredFields(plan) && field.schemaId == f.schemaId && Paths.Split(field.fieldName) == q;
    if !Clashes(pdp.rows, SchemasOf(RequiredFields(plan)), field) {
      RequiredIsDecided(pdp, app, plan, field);
    }
  }
}
