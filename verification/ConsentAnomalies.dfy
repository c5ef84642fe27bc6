/** What interleaved consent calls do not guarantee: concrete runs. */
module ConsentAnomalies {
  import opened Wrappers
  import opened Consent
  import opened ConsentService
  import opened ConsentRaces

  ghost predicate Reachable(s: State) {
    exists trace, steps :: ConsentRaces.Run(trace, steps) && trace[|trace| - 1] == s
  }

  lemma StartReachable()
    ensures Reachable(EMPTY)
  {
    assert ConsentRaces.Run([EMPTY], []);
  }

  lemma StepReachable(s: State, step: Step) returns (next: State)
    requires Reachable(s) && Enabled(s, step)
    ensures next == Next(s, step) && Reachable(next)
  {
    next := Next(s, step);
    var trace, steps :| ConsentRaces.Run(trace, steps) && trace[|trace| - 1] == s;
    var longer, more := trace + [next], steps + [step];
    forall i | 0 <= i < |more| ensures Enabled(longer[i], more[i]) && longer[i + 1] == Next(longer[i], more[i]) {
      if i < |steps| {
        assert longer[i] == trace[i] && longer[i + 1] == trace[i + 1] && more[i] == steps[i];
      }
    }
    assert ConsentRaces.Run(longer, more) && longer[|longer| - 1] == next;
  }

  const REQUEST: Request := Request("app", "owner", [ConsentField("f", "s", None, None, "citizen")], None, None)

  /** A creation that finds nothing for its pair builds its record at the current time. */
  lemma CreateUpToInsert(s: State, i: nat, newId: nat) returns (next: State)
    requires Reachable(s) && i !in s.threads && newId !in s.table && NoneFor(s.table, "owner", "app")
    ensures Reachable(next) && next.table == s.table && next.clock == s.clock
    ensures next.threads == s.threads[i := Thread(Creating(REQUEST), Inserting(NewRow(REQUEST, s.clock)))]
  {
    next := StepReachable(s, Spawn(i, Creating(REQUEST)));
    next := StepReachable(next, Move(i, 0, newId));
    next := StepReachable(next, Move(i, 0, newId));
  }

  lemma Insert(s: State, i: nat, newId: nat, row: Row) returns (next: State)
    requires Reachable(s) && i in s.threads && s.threads[i] == Thread(Creating(REQUEST), Inserting(row))
    requires newId !in s.table && NoActive(s.table, row.owner, row.app)
    ensures Reachable(next) && next.table == s.table[newId := row] && next.clock == s.clock
    ensures next.threads == s.threads[i := Thread(Creating(REQUEST), Done(Ok(Some(ViewOf(newId, row)))))]
  {
    next := StepReachable(s, Move(i, 0, newId));
  }

  /** A decision on a fresh pending record, up to its conditional write. */
  lemma DecideUpToWrite(s: State, i: nat, newId: nat, act: Act) returns (next: State)
    requires Reachable(s) && i !in s.threads && newId !in s.table
    requires act.id in s.table && s.table[act.id].owner == act.owner && s.table[act.id].status == act.action.From()
    requires !Stale(s.table[act.id], s.clock)
    ensures Reachable(next) && next.table == s.table && next.clock == s.clock
    ensures next.threads == s.threads[i := Thread(Deciding(act), Writing(act.id, s.table[act.id], s.clock))]
  {
    next := StepReachable(s, Spawn(i, Deciding(act)));
    next := StepReachable(next, Move(i, 0, newId));
    next := StepReachable(next, Move(i, 0, newId));
  }

  lemma Write(s: State, i: nat, newId: nat, act: Act, row: Row, now: int) returns (next: State)
    requires Reachable(s) && i in s.threads && s.threads[i] == Thread(Deciding(act), Writing(act.id, row, now))
    requires newId !in s.table
    requires act.id in s.table && s.table[act.id].owner == act.owner && s.table[act.id].status == act.action.From()
    ensures Reachable(next) && next.clock == s.clock
    ensures next.table == s.table[act.id := Decided(s.table[act.id], act.action, act.updatedBy, row.grantDuration, now)]
    ensures next.threads == s.threads[i := Thread(Deciding(act), Done(Ok(None)))]
  {
    next := StepReachable(s, Move(i, 0, newId));
  }

  /** An accepted approval can be lost: a read for the orchestration engine that loaded the record while it was pending,
      just past its deadline, writes the whole row back as expired after the owner's approval has been confirmed. The
      grant is gone. */
  lemma ApprovalCanBeLost() returns (s: State)
    ensures Reachable(s) && 7 in s.table && 1 in s.threads
    ensures Won(s.threads[1]) && s.threads[1].task.act == Act(7, "owner", Approve, "owner")
    ensures s.table[7].status == Expired && s.table[7].grantExpiresAt == None
  {
    StartReachable();
    s := CreateUpToInsert(EMPTY, 0, 7);
    var row := NewRow(REQUEST, 0);
    s := Insert(s, 0, 7, row);
    s := StepReachable(s, Tick(HOUR));
    var act := Act(7, "owner", Approve, "owner");
    s := DecideUpToWrite(s, 1, 8, act);
    s := StepReachable(s, Tick(HOUR + 1));
    s := StepReachable(s, Spawn(2, Viewing(7)));
    s := StepReachable(s, Move(2, 0, 8));
    s := StepReachable(s, Move(2, 0, 8));
    assert s.threads[2].point == Saving(7, row, HOUR + 1);
    s := Write(s, 1, 8, act, row, HOUR);
    s := StepReachable(s, Move(2, 0, 8));
  }

  /** With concurrent creations the active record need not be the latest: a creation that built its record first can
      insert it after a later record has come and been rejected. The latest-record lookup then finds the rejected
      one. */
  lemma ActiveCanBeOlder() returns (s: State)
    ensures Reachable(s) && 1 in s.table && 2 in s.table
    ensures s.table[1].status == Pending && IsLatest(s.table, "owner", "app", 2) && s.table[2].status == Rejected
    ensures !ActiveIsLatest(s.table)
  {
    StartReachable();
    s := CreateUpToInsert(EMPTY, 0, 1);
    var first := NewRow(REQUEST, 0);
    s := StepReachable(s, Tick(1));
    s := CreateUpToInsert(s, 1, 2);
    var second := NewRow(REQUEST, 1);
    s := Insert(s, 1, 2, second);
    var act := Act(2, "owner", Reject, "owner");
    s := DecideUpToWrite(s, 2, 3, act);
    s := Write(s, 2, 3, act, second, 1);
    s := Insert(s, 0, 1, first);
    assert s.table[1].createdAt == 0 && s.table[2].createdAt == 1 && Same(s.table[2], "owner", "app");
    assert !IsLatest(s.table, "owner", "app", 1);
  }
}
