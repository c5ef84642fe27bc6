/** What the interleaved consent engine does guarantee, and exactly when: how an approval ends, when the active record
    is the latest, what a losing decision leaves behind and what an "approved" answer rests on. */
module ConsentGuarantees {
  import opened Wrappers
  import opened Consent
  import opened ConsentService
  import opened ConsentRaces

  // How an approval ends

  /** The owner's revocation of the record is about to be written. */
  predicate Withdraws(table: Table, t: Thread, id: nat)
    requires id in table
  {
    && t.point.Writing? && t.point.id == id && t.task.Deciding? && t.task.act.action == Revoke
    && table[id].owner == t.task.act.owner
  }

  /** A record for other fields is about to replace this one. */
  predicate Supersedes(table: Table, t: Thread, newId: nat, id: nat) {
    t.point.Committing? && t.point.id == id && Inserted(table[id := t.point.revoked], newId, t.point.row).Ok?
  }

  /** A call that saw the approved record is about to expire it. */
  predicate Lapses(table: Table, t: Thread, id: nat)
    requires id in table
  {
    || ((t.point.Expiring? || t.point.Saving?) && t.point.id == id && t.point.row.status == Approved)
    || (t.point.SweepingApproved? && t.task.Sweeping? && table[id].owner == t.task.owner
        && GrantOver(table[id], t.point.now))
  }

  /** The grant has ended. */
  predicate GrantOver(row: Row, now: int) {
    row.grantExpiresAt.Some? && now > row.grantExpiresAt.value
  }

  /** A call that loaded the record while it was pending is about to write it back whole. */
  predicate Overwrites(t: Thread, id: nat) {
    t.point.Saving? && t.point.id == id && t.point.row.status == Pending
  }

  /** A step takes an approved record out of its status exactly when it is the owner's revocation, a replacement, an
      expiry or an overwriting; and an expiry comes after the grant's deadline. */
  lemma ApprovalEndsIff(s: State, i: nat, pick: nat, newId: nat, id: nat)
    requires Invariant(s) && Enabled(s, Move(i, pick, newId)) && id in s.table && s.table[id].status == Approved
    ensures var t, next := s.threads[i], Next(s, Move(i, pick, newId));
            && id in next.table
            && (next.table[id].status != Approved <==>
                || Withdraws(s.table, t, id) || Supersedes(s.table, t, newId, id)
                || Lapses(s.table, t, id) || Overwrites(t, id))
            && (Lapses(s.table, t, id) ==> GrantOver(s.table[id], t.point.now) && next.table[id].status == Expired)
            && (Withdraws(s.table, t, id) || Supersedes(s.table, t, newId, id) ==> next.table[id].status == Revoked)
            && (Overwrites(t, id) ==> next.table[id].status == Expired)
  {
    var t := s.threads[i];
    assert PointHolds(s.table, t);
    if t.point.Expiring? || t.point.Saving? {
      assert Snapshot(s.table, t.point.id, t.point.row);
    }
  }

  /** The step after `k` of a run ends the approval for a good reason. */
  predicate EndsProperly(trace: seq<State>, steps: seq<Step>, k: nat, id: nat)
    requires k < |steps| && k < |trace| && id in trace[k].table
  {
    && steps[k].Move? && steps[k].i in trace[k].threads
    && var table, t := trace[k].table, trace[k].threads[steps[k].i];
       || Withdraws(table, t, id) || Supersedes(table, t, steps[k].newId, id)
       || (Lapses(table, t, id) && GrantOver(table[id], t.point.now))
  }

  predicate EndsOverwritten(trace: seq<State>, steps: seq<Step>, k: nat, id: nat)
    requires k < |steps| && k < |trace|
  {
    steps[k].Move? && steps[k].i in trace[k].threads && Overwrites(trace[k].threads[steps[k].i], id)
  }

  /** Every approval that ends in a run ends at one step, still as it was approved, and properly unless it is
      overwritten by a call that loaded the record while it was pending. */
  lemma {:induction false} HowApprovalsEnd(trace: seq<State>, steps: seq<Step>, m: nat, n: nat,
                                           id: nat) returns (k: nat)
    requires ConsentRaces.Run(trace, steps) && m <= n < |trace|
    requires id in trace[m].table && trace[m].table[id].status == Approved
    requires id in trace[n].table && trace[n].table[id].status != Approved
    ensures m <= k < n && id in trace[k].table && trace[k].table[id] == trace[m].table[id]
    ensures trace[k + 1].table[id].status != Approved
    ensures EndsProperly(trace, steps, k, id) <==> !EndsOverwritten(trace, steps, k, id)
    decreases n
  {
    NoConsentIsResurrected(trace, steps, m, n - 1);
    assert RowEvolves(trace[m].table[id], trace[n - 1].table[id]);
    if trace[n - 1].table[id].status == Approved {
      k := n - 1;
      EndingStep(trace, steps, k, id);
    } else {
      k := HowApprovalsEnd(trace, steps, m, n - 1, id);
    }
  }

  lemma EndingStep(trace: seq<State>, steps: seq<Step>, k: nat, id: nat)
    requires ConsentRaces.Run(trace, steps) && k < |steps|
    requires id in trace[k].table && trace[k].table[id].status == Approved
    requires id in trace[k + 1].table && trace[k + 1].table[id].status != Approved
    ensures EndsProperly(trace, steps, k, id) <==> !EndsOverwritten(trace, steps, k, id)
  {
    RunsKeepInvariant(trace, steps, k);
    assert Enabled(trace[k], steps[k]) && trace[k + 1] == Next(trace[k], steps[k]);
    if steps[k].Move? {
      ApprovalEndsIff(trace[k], steps[k].i, steps[k].pick, steps[k].newId, id);
    }
  }

  // Exactly when an approval can be overwritten

  /** The call reads for the orchestration engine and holds the record as it was while pending. */
  predicate HoldsPending(t: Thread, id: nat) {
    && (t.point.Loaded? || t.point.Saving?) && t.point.id == id && t.point.row.status == Pending
    && (t.task.Viewing? || t.task.ViewingLatest? || t.task.Creating?)
  }

  predicate Outstanding(s: State, id: nat) {
    exists i :: i in s.threads && HoldsPending(s.threads[i], id)
  }

  /** Once a record has left pending, no call comes to hold it as pending. */
  lemma NoNewHolding(s: State, step: Step, id: nat)
    requires Invariant(s) && Enabled(s, step) && id in s.table && s.table[id].status != Pending
    ensures Outstanding(Next(s, step), id) ==> Outstanding(s, id)
  {
    var next := Next(s, step);
    if i :| i in next.threads && HoldsPending(next.threads[i], id) {
      if i in s.threads && next.threads[i] == s.threads[i] {
        assert HoldsPending(s.threads[i], id);
      } else {
        assert step.Move? && step.i == i;
        StillHolding(s, i, step.pick, step.newId, id);
      }
    }
  }

  lemma StillHolding(s: State, i: nat, pick: nat, newId: nat, id: nat)
    requires Invariant(s) && Enabled(s, Move(i, pick, newId)) && id in s.table && s.table[id].status != Pending
    requires HoldsPending(Next(s, Move(i, pick, newId)).threads[i], id)
    ensures HoldsPending(s.threads[i], id)
  {
    assert PointHolds(s.table, s.threads[i]);
  }

  ghost predicate Overwritten(s: State, id: nat) {
    exists trace, steps :: OverwritingRun(s, trace, steps, id)
  }

  /** A continuation in which the record stays approved until a step overwrites it. */
  ghost predicate OverwritingRun(s: State, trace: seq<State>, steps: seq<Step>, id: nat) {
    && steps != [] && RunFrom(s, trace, steps)
    && var k := |steps| - 1;
       && id in trace[k].table && trace[k].table[id].status == Approved
       && EndsOverwritten(trace, steps, k, id)
  }

  lemma {:induction false} HeldFromTheStart(s: State, trace: seq<State>, steps: seq<Step>, id: nat, k: nat)
    requires Invariant(s) && RunFrom(s, trace, steps) && k < |trace|
    requires id in s.table && s.table[id].status == Approved
    ensures Invariant(trace[k]) && id in trace[k].table && RowEvolves(s.table[id], trace[k].table[id])
    ensures Outstanding(trace[k], id) ==> Outstanding(s, id)
  {
    if k > 0 {
      HeldFromTheStart(s, trace, steps, id, k - 1);
      assert Enabled(trace[k - 1], steps[k - 1]) && trace[k] == Next(trace[k - 1], steps[k - 1]);
      StepKeepsInvariant(trace[k - 1], steps[k - 1]);
      NoNewHolding(trace[k - 1], steps[k - 1], id);
    }
  }

  /** An approval is safe, that is ends in every continuation only by revocation, replacement or after its deadline,
      exactly when no call that reads for the orchestration engine holds the record as it was while pending. */
  lemma ApprovalSafeIff(s: State, id: nat)
    requires Invariant(s) && id in s.table && s.table[id].status == Approved
    ensures !Overwritten(s, id) <==> !Outstanding(s, id)
  {
    if trace: seq<State>, steps: seq<Step> :| OverwritingRun(s, trace, steps, id) {
      var k := |steps| - 1;
      assert HoldsPending(trace[k].threads[steps[k].i], id) by {
        HeldFromTheStart(s, trace, steps, id, k);
        assert PointHolds(trace[k].table, trace[k].threads[steps[k].i]);
      }
      HeldFromTheStart(s, trace, steps, id, k);
    }
    if i :| i in s.threads && HoldsPending(s.threads[i], id) {
      HolderOverwrites(s, i, id);
    }
  }

  /** A call that holds the record as pending has only to find it stale, which time will make it, and write it back. */
  lemma HolderOverwrites(s: State, i: nat, id: nat)
    requires Invariant(s) && id in s.table && s.table[id].status == Approved
    requires i in s.threads && HoldsPending(s.threads[i], id)
    ensures Overwritten(s, id)
  {
    var newId := UnusedId(s.table);
    var t := s.threads[i];
    assert PointHolds(s.table, t);
    if t.point.Saving? {
      var step := Move(i, 0, newId);
      assert Enabled(s, step);
      assert OverwritingRun(s, [s, Next(s, step)], [step], id);
    } else {
      var row := t.point.row;
      var late := if s.clock <= row.pendingExpiresAt.value then row.pendingExpiresAt.value + 1 else s.clock;
      var step := Move(i, 0, newId);
      var s1 := Next(s, Tick(late));
      var s2 := Next(s1, step);
      assert s2.threads[i].point == Saving(id, row, late) && s2.table == s.table;
      var s3 := Next(s2, step);
      assert OverwritingRun(s, [s, s1, s2, s3], [Tick(late), step, step], id);
    }
  }

  lemma UnusedId(table: Table) returns (id: nat)
    ensures id !in table
  {
    id := 0;
    var seen: set<nat> := {};
    while id in table
      invariant seen <= table.Keys && forall x :: x in seen <==> 0 <= x < id
      decreases table.Keys - seen
    {
      seen := seen + {id};
      id := id + 1;
    }
  }

  // Exactly when the active record stays the latest

  predicate HasLater(table: Table, row: Row) {
    exists id :: id in table && Same(table[id], row.owner, row.app) && table[id].createdAt > row.createdAt
  }

  /** The step adds a record that was built before an existing one of its pair was. */
  predicate AddsOlder(table: Table, t: Thread, newId: nat) {
    || (t.point.Inserting? && Inserted(table, newId, t.point.row).Ok? && HasLater(table, t.point.row))
    || (t.point.Committing? && Inserted(table[t.point.id := t.point.revoked], newId, t.point.row).Ok?
        && HasLater(table, t.point.row))
  }

  /** Changing rows in place without making any active leaves active records the latest. */
  lemma InPlaceStaysLatest(a: Table, b: Table)
    requires ActiveIsLatest(a) && Evolves(a, b) && b.Keys == a.Keys
    ensures ActiveIsLatest(b)
  {
    forall id | id in b && b[id].status.Active() ensures IsLatest(b, b[id].owner, b[id].app, id) {
      assert RowEvolves(a[id], b[id]);
      assert IsLatest(a, a[id].owner, a[id].app, id);
      forall other | other in b && Same(b[other], b[id].owner, b[id].app)
        ensures b[other].createdAt <= b[id].createdAt
      {
        assert RowEvolves(a[other], b[other]);
      }
    }
  }

  lemma InsertStaysLatestIff(table: Table, id: nat, row: Row)
    requires ActiveIsLatest(table) && id !in table && row.status == Pending && NoActive(table, row.owner, row.app)
    ensures ActiveIsLatest(table[id := row]) <==> !HasLater(table, row)
  {
    var after := table[id := row];
    if other :| other in table && Same(table[other], row.owner, row.app) && table[other].createdAt > row.createdAt {
      assert after[other] == table[other];
      assert !IsLatest(after, row.owner, row.app, id);
    } else {
      forall a | a in after && after[a].status.Active() ensures IsLatest(after, after[a].owner, after[a].app, a) {
        if a != id {
          assert IsLatest(table, table[a].owner, table[a].app, a);
        }
      }
    }
  }

  /** A step keeps active records the latest of their pairs exactly when it does not add a record that was built before
      another of its pair. */
  lemma StaysLatestIff(s: State, i: nat, pick: nat, newId: nat)
    requires Invariant(s) && Enabled(s, Move(i, pick, newId)) && ActiveIsLatest(s.table)
    ensures ActiveIsLatest(Next(s, Move(i, pick, newId)).table) <==> !AddsOlder(s.table, s.threads[i], newId)
  {
    var t, next := s.threads[i], Next(s, Move(i, pick, newId)).table;
    assert PointHolds(s.table, t);
    GoIsGood(s.table, s.clock, t, pick, newId);
    if t.point.Inserting? && NoActive(s.table, t.point.row.owner, t.point.row.app) {
      InsertStaysLatestIff(s.table, newId, t.point.row);
    } else if t.point.Committing? {
      CommitStaysLatestIff(s.table, t.point.id, t.point.revoked, newId, t.point.row);
    } else {
      assert next.Keys == s.table.Keys;
      InPlaceStaysLatest(s.table, next);
    }
  }

  lemma CommitStaysLatestIff(table: Table, id: nat, revoked: Row, newId: nat, row: Row)
    requires ActiveIsLatest(table) && id in table && SameRequest(revoked, table[id]) && revoked.status == Revoked
    requires newId !in table && row.status == Pending
    ensures var inserted := Inserted(table[id := revoked], newId, row);
            inserted.Ok? ==> (ActiveIsLatest(inserted.value) <==> !HasLater(table, row))
  {
    var freed := table[id := revoked];
    assert Evolves(table, freed) by {
      assert forall x | x in table && x != id :: freed[x] == table[x];
    }
    InPlaceStaysLatest(table, freed);
    assert HasLater(table, row) <==> HasLater(freed, row) by {
      if x :| x in table && Same(table[x], row.owner, row.app) && table[x].createdAt > row.createdAt {
        assert Same(freed[x], row.owner, row.app) && freed[x].createdAt > row.createdAt;
      }
      if x :| x in freed && Same(freed[x], row.owner, row.app) && freed[x].createdAt > row.createdAt {
        assert Same(table[x], row.owner, row.app) && table[x].createdAt > row.createdAt;
      }
    }
    if NoActive(freed, row.owner, row.app) {
      InsertStaysLatestIff(freed, newId, row);
    }
  }

  /** No step up to the `n`-th adds a record built before another of its pair. */
  ghost predicate AddsInOrder(trace: seq<State>, steps: seq<Step>, n: nat)
    requires n <= |steps| < |trace|
  {
    forall k | 0 <= k < n && steps[k].Move? ::
      steps[k].i in trace[k].threads && !AddsOlder(trace[k].table, trace[k].threads[steps[k].i], steps[k].newId)
  }

  /** In a run the active record is the latest of its pair throughout exactly when no step adds a record built before
      another of its pair. */
  lemma {:induction false} ActiveStaysLatestIff(trace: seq<State>, steps: seq<Step>, n: nat)
    requires ConsentRaces.Run(trace, steps) && n < |trace|
    ensures (forall k | 0 <= k <= n :: ActiveIsLatest(trace[k].table)) <==> AddsInOrder(trace, steps, n)
  {
    if n > 0 {
      ActiveStaysLatestIff(trace, steps, n - 1);
      RunsKeepInvariant(trace, steps, n - 1);
      var s, step := trace[n - 1], steps[n - 1];
      assert Enabled(s, step) && trace[n] == Next(s, step);
      if ActiveIsLatest(s.table) && step.Move? {
        StaysLatestIff(s, step.i, step.pick, step.newId);
      }
    }
  }

  // What a losing decision leaves behind

  /** The step is this call's, and changes nothing or expires a record past its deadline. */
  predicate OnlyExpires(before: State, i: nat, after: State) {
    after.table != before.table ==>
      && i in before.threads && before.threads[i].point.Expiring?
      && var id, now := before.threads[i].point.id, before.threads[i].point.now;
         && id in before.table && Stale(before.table[id], now)
         && after.table == before.table[id := PersistedExpired(before.table[id], now)]
  }

  predicate Lost(t: Thread) {
    t.task.Deciding? && t.point.Done? && t.point.result.Err?
  }

  /** A call that is done stays as it is. */
  lemma {:induction false} DoneStays(trace: seq<State>, steps: seq<Step>, i: nat, k: nat, n: nat)
    requires ConsentRaces.Run(trace, steps) && k <= n < |trace|
    requires i in trace[k].threads && trace[k].threads[i].point.Done?
    ensures i in trace[n].threads && trace[n].threads[i] == trace[k].threads[i]
    decreases n
  {
    if k < n {
      DoneStays(trace, steps, i, k, n - 1);
      assert Enabled(trace[n - 1], steps[n - 1]) && trace[n] == Next(trace[n - 1], steps[n - 1]);
    }
  }

  lemma {:induction false} TaskStays(trace: seq<State>, steps: seq<Step>, i: nat, k: nat, n: nat)
    requires ConsentRaces.Run(trace, steps) && k <= n < |trace| && i in trace[k].threads
    ensures i in trace[n].threads && trace[n].threads[i].task == trace[k].threads[i].task
    decreases n
  {
    if k < n {
      TaskStays(trace, steps, i, k, n - 1);
      assert Enabled(trace[n - 1], steps[n - 1]) && trace[n] == Next(trace[n - 1], steps[n - 1]);
    }
  }

  /** A decision that loses has changed no record in any of its steps, other than by expiring one past its deadline.
      It answers that the record was not found only if at some time there was none, that it is another owner's only if
      it is, and otherwise with its wrong-status error. */
  lemma LosersChangeNothing(trace: seq<State>, steps: seq<Step>, n: nat, i: nat)
    requires ConsentRaces.Run(trace, steps) && n < |trace| && i in trace[n].threads && Lost(trace[n].threads[i])
    ensures forall k | 0 <= k < n && steps[k].Move? && steps[k].i == i :: OnlyExpires(trace[k], i, trace[k + 1])
    ensures ErrorJustified(trace, n, trace[n].threads[i])
  {
    forall k | 0 <= k < n && steps[k].Move? && steps[k].i == i ensures OnlyExpires(trace[k], i, trace[k + 1]) {
      RunsKeepInvariant(trace, steps, k);
      assert Enabled(trace[k], steps[k]) && trace[k + 1] == Next(trace[k], steps[k]);
      TaskStays(trace, steps, i, k, n);
      PortalCallsAreConditional(trace[k], i, steps[k].pick, steps[k].newId);
      if trace[k + 1].threads[i].point.Done? {
        DoneStays(trace, steps, i, k + 1, n);
      }
    }
    ErrorsAreJustified(trace, steps, n, i);
  }

  ghost predicate ErrorJustified(trace: seq<State>, n: nat, t: Thread)
    requires n < |trace|
  {
    t.task.Deciding? && t.point.Done? && t.point.result.Err? ==>
      var act := t.task.act;
      match t.point.result.error
      case NotFound => exists k :: 0 <= k <= n && act.id !in trace[k].table
      case AccessDenied => act.id in trace[n].table && trace[n].table[act.id].owner != act.owner
      case error => error == WrongStatus(act.action)
  }

  lemma {:induction false} ErrorsAreJustified(trace: seq<State>, steps: seq<Step>, n: nat, i: nat)
    requires ConsentRaces.Run(trace, steps) && n < |trace| && i in trace[n].threads
    ensures ErrorJustified(trace, n, trace[n].threads[i])
  {
    if n > 0 {
      var s, step := trace[n - 1], steps[n - 1];
      RunsKeepInvariant(trace, steps, n - 1);
      assert Enabled(s, step) && trace[n] == Next(s, step);
      StepKeepsInvariant(s, step);
      if i in s.threads {
        ErrorsAreJustified(trace, steps, n - 1, i);
        if step.Move? && step.i == i {
          ErrorStep(s, i, step.pick, step.newId);
          assert 0 <= n - 1 <= n;
        } else {
          StillJustified(trace, n, trace[n].threads[i]);
        }
      }
    }
  }

  lemma StillJustified(trace: seq<State>, n: nat, t: Thread)
    requires 0 < n < |trace| && ErrorJustified(trace, n - 1, t) && Evolves(trace[n - 1].table, trace[n].table)
    ensures ErrorJustified(trace, n, t)
  {
    if t.task.Deciding? && t.point.Done? && t.point.result == Err(NotFound) {
      var k :| 0 <= k <= n - 1 && t.task.act.id !in trace[k].table;
      assert 0 <= k <= n;
    }
  }

  lemma ErrorStep(s: State, i: nat, pick: nat, newId: nat)
    requires Invariant(s) && Enabled(s, Move(i, pick, newId))
    ensures var t, next := s.threads[i], Next(s, Move(i, pick, newId));
            Lost(next.threads[i]) ==>
              match next.threads[i].point.result.error
              case NotFound => t.task.act.id !in s.table
              case AccessDenied =>
                t.task.act.id in next.table && next.table[t.task.act.id].owner != t.task.act.owner
              case error => error == WrongStatus(t.task.act.action)
  {
    assert PointHolds(s.table, s.threads[i]);
  }

  // What an "approved" answer rests on

  /** At the `k`-th state the call loads an approved record of the request's owner and application, the latest there is,
      for exactly the requested fields, ... */
  ghost predicate LoadsApproved(trace: seq<State>, k: nat, i: nat, req: Request, id: nat, row: Row)
    requires k < |trace|
  {
    && i in trace[k].threads && trace[k].threads[i] == Thread(Creating(req), Begin)
    && id in trace[k].table && trace[k].table[id] == row && IsLatest(trace[k].table, req.owner, req.app, id)
  }

  /** ... and at the `l`-th reads the clock and finds it unexpired. */
  ghost predicate FindsUnexpired(trace: seq<State>, l: nat, i: nat, req: Request, id: nat, row: Row)
    requires l < |trace|
  {
    && i in trace[l].threads && trace[l].threads[i] == Thread(Creating(req), Loaded(id, row))
    && ConsentHeld(map[id := row], id, req, trace[l].clock)
  }

  ghost predicate Rests(trace: seq<State>, n: nat, i: nat, t: Thread)
    requires n < |trace|
  {
    t.task.Creating? ==>
      match t.point
      case Loaded(id, row) => exists k :: 0 <= k < n && LoadsApproved(trace, k, i, t.task.req, id, row)
      case Done(Ok(Some(view))) =>
        view.status == Approved ==>
          exists k, l, row ::
            && 0 <= k < l < n && LoadsApproved(trace, k, i, t.task.req, view.id, row)
            && FindsUnexpired(trace, l, i, t.task.req, view.id, row)
      case _ => true
  }

  /** A creation answered "approved" had loaded, as the latest record of the request's owner and application, an
      approved consent to exactly the requested fields, and found it unexpired, in every interleaving. */
  lemma {:induction false} ApprovedAnswersRest(trace: seq<State>, steps: seq<Step>, n: nat, i: nat)
    requires ConsentRaces.Run(trace, steps) && n < |trace| && i in trace[n].threads
    ensures Rests(trace, n, i, trace[n].threads[i])
  {
    if n > 0 {
      var s, step := trace[n - 1], steps[n - 1];
      assert Enabled(s, step) && trace[n] == Next(s, step);
      if i in s.threads && trace[n].threads[i].task.Creating? {
        ApprovedAnswersRest(trace, steps, n - 1, i);
        if trace[n].threads[i] == s.threads[i] {
          StillRests(trace, n, i, s.threads[i]);
        } else {
          RunsKeepInvariant(trace, steps, n - 1);
          RestsStep(trace, steps, n, i);
        }
      }
    }
  }

  lemma StillRests(trace: seq<State>, n: nat, i: nat, t: Thread)
    requires 0 < n < |trace| && Rests(trace, n - 1, i, t)
    ensures Rests(trace, n, i, t)
  {
    if t.task.Creating? && t.point.Loaded? {
      var k :| 0 <= k < n - 1 && LoadsApproved(trace, k, i, t.task.req, t.point.id, t.point.row);
      assert 0 <= k < n;
    }
  }

  lemma RestsStep(trace: seq<State>, steps: seq<Step>, n: nat, i: nat)
    requires ConsentRaces.Run(trace, steps) && 0 < n < |trace| && i in trace[n - 1].threads
    requires steps[n - 1].Move? && steps[n - 1].i == i && trace[n - 1].threads[i].task.Creating?
    requires Enabled(trace[n - 1], steps[n - 1]) && trace[n] == Next(trace[n - 1], steps[n - 1])
    requires Invariant(trace[n - 1]) && Rests(trace, n - 1, i, trace[n - 1].threads[i])
    ensures Rests(trace, n, i, trace[n].threads[i])
  {
    var s, t, u := trace[n - 1], trace[n - 1].threads[i], trace[n].threads[i];
    assert PointHolds(s.table, t);
    if u.point.Loaded? {
      assert LoadsApproved(trace, n - 1, i, t.task.req, u.point.id, u.point.row);
    } else if u.point.Done? && u.point.result.Ok? && u.point.result.value.Some?
              && u.point.result.value.value.status == Approved {
      var id, row := t.point.id, t.point.row;
      var k :| 0 <= k < n - 1 && LoadsApproved(trace, k, i, t.task.req, id, row);
      assert FindsUnexpired(trace, n - 1, i, t.task.req, id, row);
    }
  }
}
