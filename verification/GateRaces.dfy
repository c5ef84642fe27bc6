/** The access gate over a consent engine whose calls interleave. */
module GateRaces {
  import opened Wrappers
  import Consent
  import ConsentService
  import ConsentRaces
  import ConsentGuarantees
  import opened Gate
  import opened Plan
  import opened Requests

  /** What the gate is answered when the consent engine's call is the `i`-th one of a run: a creation for exactly the
      fields that need consent has ended by the `n`-th state, with an approved record. */
  ghost predicate AnsweredApproved(trace: seq<ConsentRaces.State>, n: nat, i: nat, req: Consent.Request)
    requires n < |trace|
  {
    && i in trace[n].threads && trace[n].threads[i].task == ConsentRaces.Creating(req)
    && match trace[n].threads[i].point
       case Done(Ok(Some(view))) => view.status == Consent.Approved
       case _ => false
  }

  /** At some moment of the call, the latest record of the owner and application was an approved, unexpired consent to
      exactly these fields. */
  ghost predicate HeldDuring(trace: seq<ConsentRaces.State>, n: nat, i: nat, req: Consent.Request)
    requires n < |trace|
  {
    exists k :: 0 <= k < n && HeldAt(trace[k], i, req)
  }

  ghost predicate HeldAt(s: ConsentRaces.State, i: nat, req: Consent.Request) {
    && i in s.threads && s.threads[i].task == ConsentRaces.Creating(req) && !s.threads[i].point.Done?
    && exists id :: IsHeld(s.table, id, req, s.clock)
  }

  /** The record is the latest of the owner and application, an approved consent to exactly these fields, and its grant
      has not ended. */
  predicate IsHeld(table: Consent.Table, id: nat, req: Consent.Request, now: int) {
    && id in table && table[id].owner == req.owner && table[id].app == req.app
    && (forall other | other in table && table[other].owner == req.owner && table[other].app == req.app ::
          table[other].createdAt <= table[id].createdAt)
    && table[id].status == Consent.Approved && table[id].fields == req.fields
    && table[id].grantExpiresAt.Some? && now <= table[id].grantExpiresAt.value
  }

  /** The gate lets the plan through, its consent call being the `i`-th one of a run of all kinds of calls. */
  ghost predicate LetThrough(trace: seq<ConsentRaces.State>, n: nat, i: nat, plan: PlanView, app: string, owner: string,
                             pdp: Option<Pdp>)
    requires n < |trace|
  {
    && plan.fetches != []
    && Authorized(app, RequiredFields(plan), pdp,
                  pdp.Some? && AnsweredApproved(trace, n, i, ConsentAsked(plan, app, owner, pdp.value)))
  }

  function ConsentAsked(plan: PlanView, app: string, owner: string, pdp: Pdp): Consent.Request {
    RequestFor(app, owner, NeedingConsent(pdp, app, RequiredFields(plan)))
  }

  /** Providers are called only over a consent, in every interleaving: when the gate lets a plan through whose fields
      need consent, then at some moment of its creation call the owner's latest record for the application was an
      approved, unexpired consent to exactly these fields. */
  lemma CallsRestOnConsent(trace: seq<ConsentRaces.State>, steps: seq<ConsentRaces.Step>, n: nat, i: nat,
                           plan: PlanView, app: string, owner: string, pdp: Pdp)
    requires ConsentRaces.Run(trace, steps) && n < |trace|
    requires LetThrough(trace, n, i, plan, app, owner, Some(pdp))
    requires NeedingConsent(pdp, app, RequiredFields(plan)) != []
    ensures PolicyAllows(pdp, app, RequiredFields(plan))
    ensures HeldDuring(trace, n, i, ConsentAsked(plan, app, owner, pdp))
  {
    ApprovedWasHeld(trace, steps, n, i, ConsentAsked(plan, app, owner, pdp));
  }

  lemma ApprovedWasHeld(trace: seq<ConsentRaces.State>, steps: seq<ConsentRaces.Step>, n: nat, i: nat,
                        req: Consent.Request)
    requires ConsentRaces.Run(trace, steps) && n < |trace| && AnsweredApproved(trace, n, i, req)
    ensures HeldDuring(trace, n, i, req)
  {
    ConsentGuarantees.ApprovedAnswersRest(trace, steps, n, i);
    var id := trace[n].threads[i].point.result.value.value.id;
    var k, l, row :| 0 <= k < l < n && ConsentGuarantees.LoadsApproved(trace, k, i, req, id, row)
                     && ConsentGuarantees.FindsUnexpired(trace, l, i, req, id, row);
    ClockMovesForward(trace, steps, k, l);
    ConsentRaces.RunsKeepInvariant(trace, steps, k);
    assert ConsentRaces.InTime(trace[k].table[id]);
    assert IsHeld(trace[k].table, id, req, trace[k].clock) by {
      forall other | other in trace[k].table && trace[k].table[other].owner == req.owner
                     && trace[k].table[other].app == req.app
        ensures Consent.Same(trace[k].table[other], req.owner, req.app)
      {
      }
    }
    assert HeldAt(trace[k], i, req);
  }

  lemma {:induction false} ClockMovesForward(trace: seq<ConsentRaces.State>, steps: seq<ConsentRaces.Step>, k: nat,
                                             l: nat)
    requires ConsentRaces.Run(trace, steps) && k <= l < |trace|
    ensures trace[k].clock <= trace[l].clock
    decreases l
  {
    if k < l {
      ClockMovesForward(trace, steps, k, l - 1);
      assert ConsentRaces.Enabled(trace[l - 1], steps[l - 1]);
      assert trace[l] == ConsentRaces.Next(trace[l - 1], steps[l - 1]);
    }
  }
}
