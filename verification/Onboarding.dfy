/** Creating an application across the identity provider, the database and the policy table, with compensation when a
    step fails. A failing step has no effect. */
module Onboarding {
  import opened Wrappers

  /** What the identity provider stored, and what its response says about it. */
  datatype Created = Created(stored: string, id: string, clientId: string, secret: string)

  /** The outcome of every remote step of one call. */
  datatype Outcomes = Outcomes(
    memberFound: bool,
    post: Option<Created>,
    roleAssigned: bool,
    cleanedUp: bool,
    inserted: bool,
    granted: bool,
    rowDeleted: bool,
    clientDeleted: bool)

  datatype Row = Row(idpApplicationId: string, idpClientId: string, memberId: string)

  datatype Request = Request(memberId: string, idpApplicationId: Option<string>, idpClientId: Option<string>)
  {
    predicate External() {
      idpApplicationId.Some? || idpClientId.Some?
    }
  }

  /** A failure, and whether undoing an earlier step failed too. */
  datatype Failure = Failure(compensationFailed: bool)

  datatype Status = Pending | Approved | Rejected

  /** The provider answered that it created a client but did not say under which id: it cannot be deleted again. */
  predicate Orphans(o: Outcomes) {
    o.post.Some? && o.post.value.id == ""
  }

  class Portal {
    /** The identity provider's clients: the client id of each application. */
    var clients: map<string, string>
    var rows: map<string, Row>
    /** The client ids on the allow-lists. */
    var granted: set<string>
    var submissions: map<string, Status>

    /** Creates a client and assigns it the data-consumer role; a client that cannot be used is deleted again. */
    method CreateClient(hasRole: bool, o: Outcomes) returns (r: Result<Created, Failure>)
      requires o.post.Some? ==> o.post.value.stored !in clients && o.post.value.id in {o.post.value.stored, ""}
      modifies this`clients
      ensures r.Ok? <==>
                && o.post.Some? && o.post.value.id != "" && o.post.value.clientId != "" && o.post.value.secret != ""
                && (hasRole ==> o.roleAssigned)
      ensures r.Ok? ==> o.post == Some(r.value) && clients == old(clients)[r.value.id := r.value.clientId]
      ensures r.Err? ==> (clients == old(clients) <==> !r.error.compensationFailed && !Orphans(o))
      ensures forall id | id in old(clients) :: id in clients && clients[id] == old(clients)[id]
    {
      if o.post.None? {
        return Err(Failure(false));
      }
      var created := o.post.value;
      clients := clients[created.stored := created.clientId];
      if created.id == "" {
        return Err(Failure(false));
      }
      if created.clientId == "" || created.secret == "" || (hasRole && !o.roleAssigned) {
        if o.cleanedUp {
          clients := clients - {created.id};
        }
        return Err(Failure(!o.cleanedUp));
      }
      r := Ok(created);
    }

    /** Creates an application: its client unless the caller supplies one, its row, and its grants. */
    method CreateApplication(req: Request, applicationId: string, hasRole: bool, o: Outcomes)
      returns (r: Result<Row, Failure>)
      requires applicationId !in rows
      requires o.post.Some? ==> o.post.value.stored !in clients && o.post.value.id in {o.post.value.stored, ""}
      modifies this`clients, this`rows, this`granted
      // All of it
      ensures r.Ok? ==>
                && applicationId in rows && rows == old(rows)[applicationId := r.value]
                && granted == old(granted) + {r.value.idpClientId} && r.value.memberId == req.memberId
                && match (req.idpApplicationId, req.idpClientId)
                   case (Some(app), Some(client)) =>
                     clients == old(clients) && r.value.idpApplicationId == app && r.value.idpClientId == client
                   case _ => clients == old(clients)[r.value.idpApplicationId := r.value.idpClientId]
      // Or nothing, exactly when no compensation failed and no client was left without an id
      ensures r.Err? ==> granted == old(granted)
      ensures r.Err? ==> (clients == old(clients) && rows == old(rows) <==>
                          !r.error.compensationFailed && !Reaches(req, o))
      ensures r.Err? && !r.error.compensationFailed ==> rows == old(rows)
      // A client that was there before is never touched
      ensures forall id | id in old(clients) :: id in clients && clients[id] == old(clients)[id]
      // It fails exactly when a step it needs fails
      ensures r.Ok? <==>
                && o.inserted && o.granted
                && match (req.idpApplicationId, req.idpClientId)
                   case (None, None) =>
                     && o.memberFound && o.post.Some? && o.post.value.id != "" && o.post.value.clientId != ""
                     && o.post.value.secret != "" && (hasRole ==> o.roleAssigned)
                   case (Some(app), Some(client)) => app != "" && client != ""
                   case _ => false
    {
      var external := req.External();
      if external && !(req.idpApplicationId.Some? && req.idpClientId.Some?) {
        return Err(Failure(false));
      }
      if external && (req.idpApplicationId.value == "" || req.idpClientId.value == "") {
        return Err(Failure(false));
      }
      var row: Row;
      if external {
        row := Row(req.idpApplicationId.value, req.idpClientId.value, req.memberId);
      } else {
        if !o.memberFound {
          return Err(Failure(false));
        }
        var created := CreateClient(hasRole, o);
        if created.Err? {
          return Err(created.error);
        }
        row := Row(created.value.id, created.value.clientId, req.memberId);
      }
      if !o.inserted {
        if !external {
          if !o.clientDeleted {
            return Err(Failure(true));
          }
          clients := clients - {row.idpApplicationId};
        }
        return Err(Failure(false));
      }
      rows := rows[applicationId := row];
      if !o.granted {
        if o.rowDeleted {
          rows := rows - {applicationId};
        }
        if !external && o.clientDeleted {
          clients := clients - {row.idpApplicationId};
        }
        return Err(Failure(!o.rowDeleted || (!external && !o.clientDeleted)));
      }
      granted := granted + {row.idpClientId};
      r := Ok(row);
    }

    /** Reviews a submission. An approval creates its application, and is taken back if that fails. */
    method UpdateSubmission(id: string, status: Option<Status>, req: Request, applicationId: string, hasRole: bool,
                            o: Outcomes, saved: bool, takenBack: bool) returns (r: Result<(), Failure>)
      requires id in submissions && applicationId !in rows && req.idpApplicationId.None? && req.idpClientId.None?
      requires o.post.Some? ==> o.post.value.stored !in clients && o.post.value.id in {o.post.value.stored, ""}
      modifies this
      ensures submissions.Keys == old(submissions.Keys)
      ensures forall other | other in submissions && other != id :: submissions[other] == old(submissions)[other]
      // What is stored: nothing if saving fails, the reviewed status otherwise, and a failed approval as pending again
      ensures !saved ==> submissions == old(submissions) && r == Err(Failure(false))
      ensures saved && status == None ==> submissions == old(submissions) && r.Ok?
      ensures saved && status in {Some(Pending), Some(Rejected)} ==>
                submissions == old(submissions)[id := status.value] && r.Ok?
      ensures saved && status == Some(Approved) ==>
                submissions == old(submissions)[id := if r.Err? && takenBack then Pending else Approved]
      // An approval stands only with its application, unless taking it back failed, which the caller is told
      ensures status == Some(Approved) && saved ==> (submissions[id] == Approved <==> r.Ok? || !takenBack)
      ensures status == Some(Approved) && saved && submissions[id] == Approved ==>
                applicationId in rows || (!takenBack && r.Err? && r.error.compensationFailed)
      ensures status == Some(Approved) && r.Ok? ==>
                submissions[id] == Approved && applicationId in rows && rows[applicationId].idpClientId in granted
      ensures status == Some(Approved) && saved && r.Err? && !r.error.compensationFailed ==>
                submissions[id] == Pending && rows == old(rows) && granted == old(granted)
      ensures status != Some(Approved) || !saved ==>
                rows == old(rows) && clients == old(clients) && granted == old(granted)
    {
      if !saved {
        return Err(Failure(false));
      }
      if status.Some? {
        submissions := submissions[id := status.value];
      }
      if status == Some(Approved) {
        var created := CreateApplication(req, applicationId, hasRole, o);
        if created.Err? {
          if !takenBack {
            return Err(Failure(true));
          }
          submissions := submissions[id := Pending];
          return Err(created.error);
        }
      }
      r := Ok(());
    }
  }

  /** The call gets as far as creating a client whose id it is not told. */
  predicate Reaches(req: Request, o: Outcomes) {
    req.idpApplicationId.None? && req.idpClientId.None? && o.memberFound && Orphans(o)
  }
}
