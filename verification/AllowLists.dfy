/** Granting and revoking access under row locks: transactions interleaved lock by lock, and the order they amount
    to. */
module AllowLists {
  import opened Wrappers
  import opened Strings
  import opened Policy

  /** A row's schema and field. */
  type Key = (string, string)

  type Lists = map<Key, map<string, Grant>>

  predicate Before(a: Key, b: Key) {
    Less(a.0, b.0) || (a.0 == b.0 && Less(a.1, b.1))
  }

  lemma BeforeTotal(a: Key, b: Key)
    ensures Before(a, b) || Before(b, a) || a == b
    ensures !Before(a, a)
    ensures !(Before(a, b) && Before(b, a))
  {
    LessTotal(a.0, b.0);
    LessTotal(a.1, b.1);
    LessTotal(a.0, a.0);
    LessTotal(a.1, a.1);
  }

  lemma BeforeTransitive(a: Key, b: Key, c: Key)
    requires Before(a, b) && Before(b, c)
    ensures Before(a, c)
  {
    if Less(a.0, b.0) && Less(b.0, c.0) {
      LessTransitive(a.0, b.0, c.0);
    }
    if Less(a.1, b.1) && Less(b.1, c.1) {
      LessTransitive(a.1, b.1, c.1);
    }
  }

  lemma NotBeforeTransitive(a: Key, b: Key, c: Key)
    requires !Before(a, b) && !Before(b, c)
    ensures !Before(a, c)
  {
    BeforeTotal(a, b);
    if Before(a, c) && Before(b, a) {
      BeforeTransitive(b, a, c);
    }
  }

  /** UpdateAllowList grants one application the given fields; RevokeAllowListEntry takes one field back. */
  datatype Task =
    | Granting(app: string, keys: seq<Key>, grant: Grant)
    | Revoking(app: string, key: Key)
  {
    function Keys(): set<Key> {
      match this
      case Granting(_, keys, _) => set k | k in keys
      case Revoking(_, key) => {key}
    }
  }

  // One transaction on its own

  /** The list of one row after the transaction. */
  function ListAfter(task: Task, list: map<string, Grant>): map<string, Grant> {
    match task
    case Granting(app, _, grant) => list[app := grant]
    case Revoking(app, _) => list - {app}
  }

  /** Every row is there and, for a revocation, holds the entry. */
  predicate Succeeds(task: Task, lists: Lists) {
    && (forall k | k in task.Keys() :: k in lists)
    && (task.Revoking? && task.key in lists ==> task.app in lists[task.key])
  }

  /** The allow-lists after the transaction has run alone. It fails without effect when a row or entry is missing. */
  function RunAlone(task: Task, lists: Lists): Lists {
    if Succeeds(task, lists) then
      map k | k in lists :: if k in task.Keys() then ListAfter(task, lists[k]) else lists[k]
    else lists
  }

  /** Some transactions, one after the other. */
  function RunInOrder(tasks: seq<Task>, lists: Lists): Lists {
    if tasks == [] then lists else RunAlone(tasks[|tasks| - 1], RunInOrder(tasks[..|tasks| - 1], lists))
  }

  class AllowListStore {
    var lists: Lists

    /** Grants an application every field of the request, or none if one of them has no row. */
    method UpdateAllowList(app: string, keys: seq<Key>, grant: Grant) returns (ok: bool)
      modifies this
      ensures lists == RunAlone(Granting(app, keys, grant), old(lists))
      ensures ok <==> forall k | k in keys :: k in old(lists)
    {
      for i := 0 to |keys|
        invariant forall k | k in keys[..i] :: k in lists
      {
        if keys[i] !in lists {
          return false;
        }
      }
      var before := lists;
      for i := 0 to |keys|
        invariant lists == GrantedUpTo(before, app, keys, grant, i)
      {
        GrantedStep(before, app, keys, grant, i);
        lists := lists[keys[i] := lists[keys[i]][app := grant]];
      }
      assert keys[..|keys|] == keys;
      ok := true;
    }

    /** Takes one application's grant of a field back. */
    method RevokeAllowListEntry(key: Key, app: string) returns (ok: bool)
      modifies this
      ensures lists == RunAlone(Revoking(app, key), old(lists))
      ensures ok <==> key in old(lists) && app in old(lists)[key]
    {
      if key !in lists || app !in lists[key] {
        return false;
      }
      lists := lists[key := lists[key] - {app}];
      ok := true;
    }
  }

  function GrantedUpTo(lists: Lists, app: string, keys: seq<Key>, grant: Grant, n: nat): Lists
    requires n <= |keys|
  {
    map k | k in lists :: if k in keys[..n] then lists[k][app := grant] else lists[k]
  }

  lemma GrantedStep(lists: Lists, app: string, keys: seq<Key>, grant: Grant, n: nat)
    requires n < |keys| && keys[n] in lists
    ensures var before := GrantedUpTo(lists, app, keys, grant, n);
            GrantedUpTo(lists, app, keys, grant, n + 1) == before[keys[n] := before[keys[n]][app := grant]]
  {
    var before, after := GrantedUpTo(lists, app, keys, grant, n), GrantedUpTo(lists, app, keys, grant, n + 1);
    assert keys[..n + 1] == keys[..n] + [keys[n]];
    var granted := lists[keys[n]][app := grant];
    assert granted[app := grant] == granted;
    forall k | k in lists ensures after[k] == before[keys[n] := before[keys[n]][app := grant]][k] {
    }
  }

  /** A grant stays with every application it does not name, and names only the requested fields. */
  lemma AloneChangesOneApp(task: Task, lists: Lists, k: Key, other: string)
    requires k in lists
    ensures var after, app := RunAlone(task, lists), task.app;
            && after.Keys == lists.Keys
            && (k !in task.Keys() || other != app ==>
                  (other in after[k] <==> other in lists[k]) &&
                  (other in lists[k] ==> after[k][other] == lists[k][other]))
            && (k in task.Keys() && Succeeds(task, lists) ==>
                  if task.Granting? then app in after[k] && after[k][app] == task.grant else app !in after[k])
  {
  }

  // Interleaved

  /** A transaction locks the rows that exist in key order, reading each list as it locks it, and commits at the end. */
  datatype Tx = Tx(task: Task, order: seq<Key>, held: nat, read: Lists, done: Option<bool>)

  /** The shared lists, the transactions and, in commit order, the finished ones' tasks. */
  datatype State = State(lists: Lists, txs: map<nat, Tx>, history: seq<Task>)

  /** By schema, then by field. */
  predicate Sorted(order: seq<Key>) {
    forall i, j | 0 <= i < j < |order| ::
      Less(order[i].0, order[j].0) || (order[i].0 == order[j].0 && Less(order[i].1, order[j].1))
  }

  /** The locks to take: the rows that exist, in key order. */
  ghost predicate LocksFor(task: Task, lists: Lists, order: seq<Key>) {
    Sorted(order) && forall k :: k in order <==> k in task.Keys() && k in lists
  }

  predicate Holds(tx: Tx, k: Key) {
    tx.done.None? && tx.held <= |tx.order| && k in tx.order[..tx.held]
  }

  predicate Free(s: State, i: nat, k: Key) {
    forall j | j in s.txs && j != i :: !Holds(s.txs[j], k)
  }

  datatype Step = Begin(i: nat, task: Task, order: seq<Key>) | Lock(i: nat) | Commit(i: nat)

  ghost predicate Enabled(s: State, step: Step) {
    match step
    case Begin(i, task, order) => i !in s.txs && LocksFor(task, s.lists, order)
    case Lock(i) =>
      && i in s.txs && s.txs[i].done.None? && s.txs[i].held < |s.txs[i].order|
      && Free(s, i, s.txs[i].order[s.txs[i].held]) && s.txs[i].order[s.txs[i].held] in s.lists
    case Commit(i) => i in s.txs && s.txs[i].done.None? && s.txs[i].held == |s.txs[i].order|
  }

  /** Whether the transaction goes through, judged by what it has read. */
  predicate Accepts(tx: Tx) {
    && (forall k | k in tx.task.Keys() :: k in tx.read)
    && (tx.task.Revoking? && tx.task.key in tx.read ==> tx.task.app in tx.read[tx.task.key])
  }

  function Next(s: State, step: Step): State
    requires Enabled(s, step)
  {
    match step
    case Begin(i, task, order) => s.(txs := s.txs[i := Tx(task, order, 0, map[], None)])
    case Lock(i) =>
      var tx := s.txs[i];
      var k := tx.order[tx.held];
      s.(txs := s.txs[i := tx.(held := tx.held + 1, read := tx.read[k := s.lists[k]])])
    case Commit(i) =>
      var tx := s.txs[i];
      State(if Accepts(tx) then Written(tx, s.lists) else s.lists,
            s.txs[i := tx.(done := Some(Accepts(tx)))],
            s.history + [tx.task])
  }

  /** The lists after the transaction's writes: each locked row gets the list made from the one read. */
  function Written(tx: Tx, lists: Lists): Lists {
    map k | k in lists :: if k in tx.read then ListAfter(tx.task, tx.read[k]) else lists[k]
  }

  ghost predicate Run(start: Lists, trace: seq<State>, steps: seq<Step>) {
    && |trace| == |steps| + 1 && trace[0] == State(start, map[], [])
    && forall i | 0 <= i < |steps| :: Enabled(trace[i], steps[i]) && trace[i + 1] == Next(trace[i], steps[i])
  }

  // What locking keeps

  /** An open transaction has read exactly the rows it holds, and nobody has changed them since. */
  ghost predicate TxHolds(lists: Lists, tx: Tx) {
    && LocksFor(tx.task, lists, tx.order)
    && tx.held <= |tx.order|
    && (tx.done.None? ==>
          && (forall k :: k in tx.read <==> k in tx.order[..tx.held])
          && (forall k | k in tx.read :: k in lists && tx.read[k] == lists[k]))
  }

  ghost predicate Exclusive(txs: map<nat, Tx>) {
    forall i, j, k | i in txs && j in txs && i != j && Holds(txs[i], k) :: !Holds(txs[j], k)
  }

  ghost predicate Invariant(start: Lists, s: State) {
    && s.lists.Keys == start.Keys
    && s.lists == RunInOrder(s.history, start)
    && AllHold(s.lists, s.txs)
    && Exclusive(s.txs)
  }

  ghost predicate AllHold(lists: Lists, txs: map<nat, Tx>) {
    forall i | i in txs :: TxHolds(lists, txs[i])
  }

  lemma CommitKeepsOthers(lists: Lists, tx: Tx, other: Tx)
    requires TxHolds(lists, tx) && tx.done.None? && TxHolds(lists, other)
    requires forall k | Holds(tx, k) :: !Holds(other, k)
    ensures TxHolds(if Accepts(tx) then Written(tx, lists) else lists, other)
  {
    var after := if Accepts(tx) then Written(tx, lists) else lists;
    assert after.Keys == lists.Keys;
    if other.done.None? {
      forall k | k in other.read ensures k in after && other.read[k] == after[k] {
        assert Holds(other, k);
        assert k in tx.read ==> Holds(tx, k);
      }
    }
  }

  lemma BeginKeepsInvariant(start: Lists, s: State, i: nat, task: Task, order: seq<Key>)
    requires Invariant(start, s) && Enabled(s, Begin(i, task, order))
    ensures Invariant(start, Next(s, Begin(i, task, order)))
  {
    var tx := Tx(task, order, 0, map[], None);
    assert order[..0] == [];
    assert TxHolds(s.lists, tx);
  }

  lemma LockKeepsInvariant(start: Lists, s: State, i: nat)
    requires Invariant(start, s) && Enabled(s, Lock(i))
    ensures Invariant(start, Next(s, Lock(i)))
  {
    var tx := s.txs[i];
    var k := tx.order[tx.held];
    var next := tx.(held := tx.held + 1, read := tx.read[k := s.lists[k]]);
    assert TxHolds(s.lists, tx);
    assert tx.order[..tx.held + 1] == tx.order[..tx.held] + [k];
    assert TxHolds(s.lists, next);
    forall j, l | j in s.txs && j != i && Holds(next, l) ensures !Holds(s.txs[j], l) {
      assert l == k || Holds(tx, l);
    }
  }

  lemma CommitKeepsInvariant(start: Lists, s: State, i: nat)
    requires Invariant(start, s) && Enabled(s, Commit(i))
    ensures Invariant(start, Next(s, Commit(i)))
  {
    var tx, after := s.txs[i], Next(s, Commit(i));
    assert TxHolds(s.lists, tx);
    assert after.history[..|s.history|] == s.history;
    forall j | j in after.txs ensures TxHolds(after.lists, after.txs[j]) {
      if j != i {
        CommitKeepsOthers(s.lists, tx, s.txs[j]);
      }
    }
  }

  lemma StepKeepsInvariant(start: Lists, s: State, step: Step)
    requires Invariant(start, s) && Enabled(s, step)
    ensures Invariant(start, Next(s, step))
  {
    match step {
      case Begin(i, task, order) => BeginKeepsInvariant(start, s, i, task, order);
      case Lock(i) => LockKeepsInvariant(start, s, i);
      case Commit(i) => CommitKeepsInvariant(start, s, i);
    }
  }

  lemma {:induction false} RunsKeepInvariant(start: Lists, trace: seq<State>, steps: seq<Step>, n: nat)
    requires Run(start, trace, steps) && n < |trace|
    ensures Invariant(start, trace[n])
  {
    if n > 0 {
      RunsKeepInvariant(start, trace, steps, n - 1);
      assert Enabled(trace[n - 1], steps[n - 1]) && trace[n] == Next(trace[n - 1], steps[n - 1]);
      StepKeepsInvariant(start, trace[n - 1], steps[n - 1]);
    }
  }

  /** Grants and revocations serialize: at every moment of every interleaving the allow-lists are what the transactions
      committed so far leave when run alone one after the other, in commit order, and a committing transaction succeeds
      or fails as it would alone at that point. */
  lemma TransactionsSerialize(start: Lists, trace: seq<State>, steps: seq<Step>, n: nat)
    requires Run(start, trace, steps) && n < |trace|
    ensures trace[n].lists == RunInOrder(trace[n].history, start)
    ensures n < |steps| && steps[n].Commit? ==>
              && steps[n].i in trace[n].txs && steps[n].i in trace[n + 1].txs
              && var task := trace[n].txs[steps[n].i].task;
                 && trace[n + 1].history == trace[n].history + [task]
                 && trace[n + 1].lists == RunAlone(task, trace[n].lists)
                 && trace[n + 1].txs[steps[n].i].done == Some(Succeeds(task, trace[n].lists))
  {
    RunsKeepInvariant(start, trace, steps, n);
    if n < |steps| && steps[n].Commit? {
      var i := steps[n].i;
      assert Enabled(trace[n], steps[n]) && trace[n + 1] == Next(trace[n], steps[n]);
      assert TxHolds(trace[n].lists, trace[n].txs[i]);
    }
  }

  // No deadlock

  /** `i` waits for a row that `j` holds. */
  predicate WaitsFor(s: State, i: nat, j: nat) {
    && i in s.txs && j in s.txs && i != j
    && s.txs[i].done.None? && s.txs[i].held < |s.txs[i].order|
    && Holds(s.txs[j], s.txs[i].order[s.txs[i].held])
  }

  /** Each transaction of the chain waits for the next. */
  predicate WaitChain(s: State, chain: seq<nat>) {
    |chain| >= 2 && forall k | 0 <= k < |chain| - 1 :: WaitsFor(s, chain[k], chain[k + 1])
  }

  function Wanted(tx: Tx): Key
    requires tx.held < |tx.order|
  {
    tx.order[tx.held]
  }

  lemma {:induction false} WantedIncreases(start: Lists, s: State, chain: seq<nat>)
    requires Invariant(start, s) && WaitChain(s, chain)
    requires chain[|chain| - 1] in s.txs && s.txs[chain[|chain| - 1]].held < |s.txs[chain[|chain| - 1]].order|
    ensures WaitsFor(s, chain[0], chain[1])
    ensures Before(Wanted(s.txs[chain[0]]), Wanted(s.txs[chain[|chain| - 1]]))
    decreases |chain|
  {
    assert WaitsFor(s, chain[0], chain[1]);
    if |chain| > 2 {
      var rest := chain[1..];
      forall k | 0 <= k < |rest| - 1 ensures WaitsFor(s, rest[k], rest[k + 1]) {
        assert WaitsFor(s, chain[k + 1], chain[k + 2]);
      }
      WantedIncreases(start, s, rest);
      BeforeTransitive(Wanted(s.txs[chain[0]]), Wanted(s.txs[chain[1]]), Wanted(s.txs[chain[|chain| - 1]]));
    }
  }

  /** Waiting never goes in a circle, because locks are taken in key order. */
  lemma NoDeadlock(start: Lists, trace: seq<State>, steps: seq<Step>, n: nat, chain: seq<nat>)
    requires Run(start, trace, steps) && n < |trace| && WaitChain(trace[n], chain)
    ensures chain[0] != chain[|chain| - 1]
  {
    if chain[0] == chain[|chain| - 1] {
      RunsKeepInvariant(start, trace, steps, n);
      assert WaitsFor(trace[n], chain[0], chain[1]);
      WantedIncreases(start, trace[n], chain);
      BeforeTotal(Wanted(trace[n].txs[chain[0]]), Wanted(trace[n].txs[chain[0]]));
    }
  }

  predicate Open(s: State, i: nat) {
    i in s.txs && s.txs[i].done.None?
  }

  /** Of some waiting transactions, one that wants a row no other's comes after. */
  lemma {:induction false} LastWanted(s: State, ids: set<nat>) returns (last: nat)
    requires ids != {} && forall i | i in ids :: i in s.txs && s.txs[i].held < |s.txs[i].order|
    ensures last in ids && forall i | i in ids :: !Before(Wanted(s.txs[last]), Wanted(s.txs[i]))
    decreases |ids|
  {
    last :| last in ids;
    var rest := ids - {last};
    if rest == {} {
      assert ids == {last};
      BeforeTotal(Wanted(s.txs[last]), Wanted(s.txs[last]));
    } else {
      var other := LastWanted(s, rest);
      BeforeTotal(Wanted(s.txs[last]), Wanted(s.txs[other]));
      BeforeTotal(Wanted(s.txs[last]), Wanted(s.txs[last]));
      if Before(Wanted(s.txs[last]), Wanted(s.txs[other])) {
        last := other;
      } else {
        forall i | i in rest ensures !Before(Wanted(s.txs[last]), Wanted(s.txs[i])) {
          NotBeforeTransitive(Wanted(s.txs[last]), Wanted(s.txs[other]), Wanted(s.txs[i]));
        }
      }
    }
  }

  /** As long as a transaction is open, some open transaction can take its next lock or commit. */
  lemma Progress(start: Lists, trace: seq<State>, steps: seq<Step>, n: nat, i: nat)
    requires Run(start, trace, steps) && n < |trace| && Open(trace[n], i)
    ensures exists j :: Open(trace[n], j) && (Enabled(trace[n], Lock(j)) || Enabled(trace[n], Commit(j)))
  {
    var s := trace[n];
    RunsKeepInvariant(start, trace, steps, n);
    var waiting := set j | j in s.txs && Open(s, j) && s.txs[j].held < |s.txs[j].order|;
    assert TxHolds(s.lists, s.txs[i]);
    if waiting == {} {
      assert i !in waiting;
      assert Enabled(s, Commit(i));
    } else {
      var last := LastWanted(s, waiting);
      assert TxHolds(s.lists, s.txs[last]);
      if j :| j in s.txs && j != last && Holds(s.txs[j], Wanted(s.txs[last])) {
        assert WaitsFor(s, last, j);
        assert TxHolds(s.lists, s.txs[j]);
        assert j in waiting <==> s.txs[j].held < |s.txs[j].order|;
        assert Open(s, j) && Enabled(s, Commit(j));
      } else {
        assert Open(s, last) && Enabled(s, Lock(last));
      }
    }
  }
}
