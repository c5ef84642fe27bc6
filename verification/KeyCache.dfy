/** The cache of the identity provider's signing keys: its checks under the read lock, its second checks and fetches
    under the write lock, interleaved. */
module KeyCache {
  import opened Wrappers

  /** A key set, named by the order it was installed in: the first one is 1. */
  type KeySet = nat

  /** How a caller got its key set. */
  datatype Source =
    /** From the cache, after the clock read `checkedAt`. */
    | Cached(checkedAt: int)
    | Reused
    | Fetched

  datatype Point =
    | Begin
    /** The clock has been read; the read lock is taken next. */
    | Checking(now: int)
    /** The cache would not do; `snapshot` is when it was last fetched, `installed` how many sets had been. */
    | Waiting(snapshot: int, installed: nat)
    /** Holding the write lock. */
    | Rechecking(snapshot: int, installed: nat)
    | Fetching(now: int, installed: nat)
    | Done(result: Option<KeySet>, source: Source, installed: nat)

  datatype Call = Call(force: bool, point: Point)

  /** The cached set, if any, is the last one installed; `times` records when each of them was fetched. */
  datatype State = State(ttl: int, cached: bool, times: seq<int>, lastFetch: int, clock: int, writer: Option<nat>,
                         calls: map<nat, Call>)
  {
    function Installed(): nat {
      |times|
    }

    /** When the set was fetched. */
    function FetchedAt(keys: KeySet): int
      requires 0 < keys <= |times|
    {
      times[keys - 1]
    }
  }

  predicate Valid(s: State, now: int) {
    s.cached && s.ttl > 0 && now - s.lastFetch < s.ttl
  }

  /** Time passes; a call begins, reads the clock, checks under the read lock, gets the write lock, checks again, and
      fetches a set or fails to. */
  datatype Step =
    | Tick(clock: int)
    | Spawn(i: nat, force: bool)
    | ReadClock(i: nat)
    | Check(i: nat)
    | Acquire(i: nat)
    | Recheck(i: nat)
    | Answer(i: nat, ok: bool)

  predicate Enabled(s: State, step: Step) {
    match step
    case Tick(clock) => s.clock <= clock
    case Spawn(i, _) => i !in s.calls
    case ReadClock(i) => i in s.calls && s.calls[i].point.Begin?
    case Check(i) => i in s.calls && s.calls[i].point.Checking? && s.writer.None?
    case Acquire(i) => i in s.calls && s.calls[i].point.Waiting? && s.writer.None?
    case Recheck(i) => i in s.calls && s.calls[i].point.Rechecking?
    case Answer(i, _) => i in s.calls && s.calls[i].point.Fetching?
  }

  function Moved(s: State, i: nat, point: Point): State
    requires i in s.calls
  {
    s.(calls := s.calls[i := s.calls[i].(point := point)])
  }

  function Next(s: State, step: Step): State
    requires Enabled(s, step)
  {
    match step
    case Tick(clock) => s.(clock := clock)
    case Spawn(i, force) => s.(calls := s.calls[i := Call(force, Begin)])
    case ReadClock(i) => Moved(s, i, Checking(s.clock))
    case Check(i) =>
      var now := s.calls[i].point.now;
      if !s.calls[i].force && Valid(s, now)
      then Moved(s, i, Done(Some(s.Installed()), Cached(now), s.Installed()))
      else Moved(s, i, Waiting(s.lastFetch, s.Installed()))
    case Acquire(i) =>
      Moved(s, i, Rechecking(s.calls[i].point.snapshot, s.calls[i].point.installed)).(writer := Some(i))
    case Recheck(i) =>
      var p := s.calls[i].point;
      if !s.calls[i].force && Valid(s, s.clock)
      then Moved(s, i, Done(Some(s.Installed()), Cached(s.clock), p.installed)).(writer := None)
      else if s.calls[i].force && s.cached && s.lastFetch > p.snapshot
      then Moved(s, i, Done(Some(s.Installed()), Reused, p.installed)).(writer := None)
      else Moved(s, i, Fetching(s.clock, p.installed))
    case Answer(i, ok) =>
      var p := s.calls[i].point;
      if ok
      then Moved(s, i, Done(Some(s.Installed() + 1), Fetched, p.installed))
           .(cached := true, times := s.times + [p.now], lastFetch := p.now, writer := None)
      else Moved(s, i, Done(None, Fetched, p.installed)).(writer := None)
  }

  /** Nothing cached; the last fetch lies before any time the clock shows. */
  predicate Initial(s: State) {
    !s.cached && s.times == [] && s.lastFetch <= s.clock && s.writer.None? && s.calls == map[]
  }

  ghost predicate Run(trace: seq<State>, steps: seq<Step>) {
    && |trace| == |steps| + 1 && Initial(trace[0])
    && forall i | 0 <= i < |steps| :: Enabled(trace[i], steps[i]) && trace[i + 1] == Next(trace[i], steps[i])
  }

  // What holds at every moment

  predicate PointHolds(s: State, i: nat, call: Call) {
    match call.point
    case Begin => s.writer != Some(i)
    case Checking(now) => s.writer != Some(i) && now <= s.clock
    case Waiting(snapshot, installed) => s.writer != Some(i) && Snapshot(s, snapshot, installed)
    case Rechecking(snapshot, installed) => s.writer == Some(i) && Snapshot(s, snapshot, installed)
    case Fetching(now, installed) =>
      s.writer == Some(i) && now <= s.clock && s.lastFetch <= now && installed <= s.Installed()
    case Done(result, source, installed) =>
      && s.writer != Some(i)
      && (result.Some? ==> 0 < result.value <= s.Installed() && (source.Cached? || result.value > installed))
      && (call.force ==> !source.Cached?)
      && (source.Reused? ==> call.force)
      && (result.Some? && source.Cached? ==>
            !call.force && 0 < s.ttl && source.checkedAt - s.FetchedAt(result.value) < s.ttl)
  }

  /** The last fetch only moves with an installation. */
  predicate Snapshot(s: State, snapshot: int, installed: nat) {
    && installed <= s.Installed() && snapshot <= s.lastFetch
    && (s.lastFetch > snapshot ==> installed < s.Installed())
  }

  predicate Invariant(s: State) {
    && s.lastFetch <= s.clock
    && (s.cached <==> s.times != [])
    && (s.cached ==> s.lastFetch == s.FetchedAt(s.Installed()))
    && (s.writer.Some? ==> s.writer.value in s.calls)
    && forall i | i in s.calls :: PointHolds(s, i, s.calls[i])
  }

  /** What a step may change under the feet of another call. */
  predicate Later(s: State, next: State, i: nat) {
    && s.clock <= next.clock && s.times <= next.times && s.lastFetch <= next.lastFetch && s.ttl == next.ttl
    && (s.lastFetch < next.lastFetch ==> s.Installed() < next.Installed())
    && (s.writer == Some(i) <==> next.writer == Some(i))
    && (s.writer == Some(i) ==> s.lastFetch == next.lastFetch)
  }

  lemma PointStable(s: State, next: State, i: nat, call: Call)
    requires PointHolds(s, i, call) && Later(s, next, i)
    ensures PointHolds(next, i, call)
  {
  }

  lemma StepKeepsInvariant(s: State, step: Step)
    requires Invariant(s) && Enabled(s, step)
    ensures Invariant(Next(s, step))
    ensures s.lastFetch <= Next(s, step).lastFetch && s.times <= Next(s, step).times
  {
    var next := Next(s, step);
    if !step.Tick? && !step.Spawn? {
      assert PointHolds(s, step.i, s.calls[step.i]);
    }
    forall j | j in next.calls ensures PointHolds(next, j, next.calls[j]) {
      if j in s.calls && (step.Tick? || step.Spawn? || step.i != j) {
        PointStable(s, next, j, s.calls[j]);
      }
    }
  }

  lemma {:induction false} RunsKeepInvariant(trace: seq<State>, steps: seq<Step>, n: nat)
    requires Run(trace, steps) && n < |trace|
    ensures Invariant(trace[n])
  {
    if n > 0 {
      RunsKeepInvariant(trace, steps, n - 1);
      assert Enabled(trace[n - 1], steps[n - 1]) && trace[n] == Next(trace[n - 1], steps[n - 1]);
      StepKeepsInvariant(trace[n - 1], steps[n - 1]);
    }
  }

  /** The time of the last fetch never moves back. */
  lemma {:induction false} LastFetchMovesForward(trace: seq<State>, steps: seq<Step>, m: nat, n: nat)
    requires Run(trace, steps) && m <= n < |trace|
    ensures trace[m].lastFetch <= trace[n].lastFetch && trace[m].times <= trace[n].times
    decreases n
  {
    if m < n {
      LastFetchMovesForward(trace, steps, m, n - 1);
      RunStep(trace, steps, n);
    }
  }

  lemma RunStep(trace: seq<State>, steps: seq<Step>, n: nat)
    requires Run(trace, steps) && 0 < n < |trace|
    ensures trace[n - 1].lastFetch <= trace[n].lastFetch && trace[n - 1].times <= trace[n].times
  {
    RunsKeepInvariant(trace, steps, n - 1);
    assert Enabled(trace[n - 1], steps[n - 1]) && trace[n] == Next(trace[n - 1], steps[n - 1]);
    StepKeepsInvariant(trace[n - 1], steps[n - 1]);
  }

  /** The clock showed `now` while the call was under way. */
  ghost predicate ReadDuring(trace: seq<State>, n: nat, i: nat, now: int)
    requires n < |trace|
  {
    exists m :: 0 <= m < n && i in trace[m].calls && !trace[m].calls[i].point.Done? && trace[m].clock == now
  }

  /** The clock readings that a call goes by are its own. */
  lemma {:induction false} ClockIsRead(trace: seq<State>, steps: seq<Step>, n: nat, i: nat)
    requires Run(trace, steps) && n < |trace| && i in trace[n].calls
    ensures trace[n].calls[i].point.Checking? ==> ReadDuring(trace, n, i, trace[n].calls[i].point.now)
    ensures trace[n].calls[i].point.Done? && trace[n].calls[i].point.source.Cached? ==>
              ReadDuring(trace, n, i, trace[n].calls[i].point.source.checkedAt)
  {
    if n > 0 {
      assert Enabled(trace[n - 1], steps[n - 1]) && trace[n] == Next(trace[n - 1], steps[n - 1]);
      if i in trace[n - 1].calls {
        ClockIsRead(trace, steps, n - 1, i);
        assert forall now | ReadDuring(trace, n - 1, i, now) :: ReadDuring(trace, n, i, now);
        assert !trace[n - 1].calls[i].point.Done? ==> ReadDuring(trace, n, i, trace[n - 1].clock);
      }
    }
  }

  /** The answers are fresh. A forced refresh that returns keys returns a set installed after it had looked at the
      cache, whether it fetched the set or another call did while it waited. An unforced call that returns keys returns
      a set it fetched, or one that had been fetched less than the time-to-live before a moment during the call. */
  lemma AnswersAreFresh(trace: seq<State>, steps: seq<Step>, n: nat, i: nat)
    requires Run(trace, steps) && n < |trace| && i in trace[n].calls
    requires trace[n].calls[i].point.Done? && trace[n].calls[i].point.result.Some?
    ensures var call := trace[n].calls[i];
            var keys := call.point.result.value;
            && 0 < keys <= trace[n].Installed()
            && if call.force || call.point.source.Fetched? then call.point.installed < keys
               else exists now ::
                      ReadDuring(trace, n, i, now) && now - trace[n].FetchedAt(keys) < trace[n].ttl
  {
    RunsKeepInvariant(trace, steps, n);
    assert PointHolds(trace[n], i, trace[n].calls[i]);
    ClockIsRead(trace, steps, n, i);
  }

  /** At most one call fetches at a time, and only it can install a set. */
  lemma OneFetchAtATime(trace: seq<State>, steps: seq<Step>, n: nat, i: nat, j: nat)
    requires Run(trace, steps) && n < |trace| && i in trace[n].calls && j in trace[n].calls
    requires trace[n].calls[i].point.Fetching? && trace[n].calls[j].point.Fetching?
    ensures i == j
  {
    RunsKeepInvariant(trace, steps, n);
    assert PointHolds(trace[n], i, trace[n].calls[i]) && PointHolds(trace[n], j, trace[n].calls[j]);
  }

  /** The call's second check, before the `n`-th state, read the clock at `now`. */
  ghost predicate RecheckedAt(trace: seq<State>, steps: seq<Step>, n: nat, i: nat, now: int)
    requires n <= |steps| < |trace|
  {
    exists m: nat :: m < n && steps[m] == Recheck(i) && trace[m].clock == now
  }

  lemma {:induction false} FetchIsDated(trace: seq<State>, steps: seq<Step>, n: nat, i: nat)
    requires Run(trace, steps) && n < |trace| && i in trace[n].calls && trace[n].calls[i].point.Fetching?
    ensures RecheckedAt(trace, steps, n, i, trace[n].calls[i].point.now)
  {
    if n > 0 {
      assert Enabled(trace[n - 1], steps[n - 1]) && trace[n] == Next(trace[n - 1], steps[n - 1]);
      if i in trace[n - 1].calls && trace[n - 1].calls[i].point == trace[n].calls[i].point {
        FetchIsDated(trace, steps, n - 1, i);
      }
    }
  }

  /** A set that arrives is installed as fetched before the request for it went out, when the lock was already held: it
      is never younger than it claims to be. The installed sets change in no other step. */
  lemma SetsAreDated(trace: seq<State>, steps: seq<Step>, n: nat)
    requires Run(trace, steps) && n < |steps|
    ensures if steps[n].Answer? && steps[n].ok
            then trace[n + 1].cached && trace[n + 1].writer.None?
                 && exists now :: RecheckedAt(trace, steps, n, steps[n].i, now) && trace[n + 1].lastFetch == now
                                  && trace[n + 1].times == trace[n].times + [now]
            else trace[n + 1].cached == trace[n].cached && trace[n + 1].lastFetch == trace[n].lastFetch
                 && trace[n + 1].times == trace[n].times
  {
    assert Enabled(trace[n], steps[n]) && trace[n + 1] == Next(trace[n], steps[n]);
    if steps[n].Answer? {
      FetchIsDated(trace, steps, n, steps[n].i);
    }
  }

  /** The `k`-th step of the run is the failing fetch of the `i`-th call, after which the cache is as it was. */
  ghost predicate FailsAt(trace: seq<State>, steps: seq<Step>, k: nat, i: nat)
    requires |trace| == |steps| + 1 && k < |steps|
  {
    && steps[k] == Answer(i, false) && i in trace[k].calls && trace[k].calls[i].point.Fetching?
    && trace[k + 1].cached == trace[k].cached && trace[k + 1].times == trace[k].times
    && trace[k + 1].lastFetch == trace[k].lastFetch
  }

  /** A call ends without keys only through its own failed fetch, which leaves the cache as it was. */
  lemma {:induction false} NoKeysOnlyByFailure(trace: seq<State>, steps: seq<Step>, n: nat, i: nat)
    requires Run(trace, steps) && n < |trace| && i in trace[n].calls
    requires trace[n].calls[i].point.Done? && trace[n].calls[i].point.result.None?
    ensures exists k: nat :: k < n && FailsAt(trace, steps, k, i)
  {
    if n > 0 {
      assert Enabled(trace[n - 1], steps[n - 1]) && trace[n] == Next(trace[n - 1], steps[n - 1]);
      if i in trace[n - 1].calls && trace[n - 1].calls[i].point == trace[n].calls[i].point {
        NoKeysOnlyByFailure(trace, steps, n - 1, i);
      } else {
        assert FailsAt(trace, steps, n - 1, i);
      }
    }
  }

  /** The cached set may be used at a time: it was fetched less than the time-to-live before. */
  predicate Usable(s: State, now: int) {
    s.times != [] && 0 < s.ttl && now - s.times[|s.times| - 1] < s.ttl
  }

  /** The cache saves fetches: an unforced call that finds a usable set, before or after waiting for the write lock,
      answers with the last one installed, and so does a forced one if a newer set was fetched while it waited. Only a
      call that finds none goes on to fetch. It looks while nobody else holds the write lock. */
  lemma CacheIsUsed(trace: seq<State>, steps: seq<Step>, n: nat, i: nat)
    requires Run(trace, steps) && n < |steps| && (steps[n] == Check(i) || steps[n] == Recheck(i))
    ensures i in trace[n].calls && i in trace[n + 1].calls
    ensures trace[n].writer == if steps[n].Check? then None else Some(i)
    ensures var s, call, next := trace[n], trace[n].calls[i], trace[n + 1].calls[i].point;
            var usable :=
              if call.force then call.point.Rechecking? && s.times != [] && s.lastFetch > call.point.snapshot
              else Usable(s, if call.point.Checking? then call.point.now else s.clock);
            if usable then next.Done? && next.result == Some(|s.times|)
            else if call.point.Checking? then next == Waiting(s.lastFetch, |s.times|)
            else next == Fetching(s.clock, call.point.installed)
  {
    RunsKeepInvariant(trace, steps, n);
    assert Enabled(trace[n], steps[n]) && trace[n + 1] == Next(trace[n], steps[n]);
    assert PointHolds(trace[n], i, trace[n].calls[i]);
  }

  /** The call the step belongs to. */
  predicate StepOf(step: Step, i: nat) {
    step in {ReadClock(i), Check(i), Acquire(i), Recheck(i), Answer(i, true), Answer(i, false)}
  }

  /** As long as a call is under way, it or the one holding the write lock can take its next step. */
  lemma Progress(trace: seq<State>, steps: seq<Step>, n: nat, i: nat)
    requires Run(trace, steps) && n < |trace| && i in trace[n].calls && !trace[n].calls[i].point.Done?
    ensures exists j, step ::
              && j in trace[n].calls && !trace[n].calls[j].point.Done? && StepOf(step, j)
              && (j == i || trace[n].writer == Some(j)) && Enabled(trace[n], step)
  {
    RunsKeepInvariant(trace, steps, n);
    var s := trace[n];
    assert PointHolds(s, i, s.calls[i]);
    var j := if s.writer.Some? then s.writer.value else i;
    assert PointHolds(s, j, s.calls[j]);
    var step :=
      match s.calls[j].point
      case Begin => ReadClock(j)
      case Checking(_) => Check(j)
      case Waiting(_, _) => Acquire(j)
      case Rechecking(_, _) => Recheck(j)
      case _ => Answer(j, true);
    assert StepOf(step, j) && Enabled(s, step);
  }
}
