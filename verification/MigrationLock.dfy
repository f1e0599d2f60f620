// The lease lock of services/api/src/run-migrations.ts (withMigrationLock) as a protocol: any number of
// processes poll one lock document of one database and share one clock, in milliseconds.
//
// Reading the clock, applying the update and deleting the lock are separate steps, so any interleaving, delay,
// lost reply and crash is a run of the model. A process is identified with its `owner` string, which the
// source makes unique; a restarted process is a new one.
module MigrationLock {
  import opened Wrappers

  const LEASE_MS := 90_000
  const POLL_MS := 400
  const DEADLINE_MS := 120_000
  const MAX_POLLS := 300

  /** How the migration run, or its release, ended. DuplicateKey is an error whose code is 11000. */
  datatype Outcome = Succeeded | Threw | DuplicateKey | Crashed

  datatype Phase =
    | Checking
    | Entered
    | Captured(now: int)
    | Running(expiresAt: int)
    | Releasing(outcome: Outcome)
    | Sleeping(wakeAt: int)
    | Finished(outcome: Outcome)

  /** `polls` counts the iterations of the polling loop that the process has begun. */
  datatype Process = Process(deadline: int, polls: nat, phase: Phase)

  datatype Lock = Lock(owner: nat, expiresAt: int)

  datatype State = State(clock: int, lock: Option<Lock>, processes: map<nat, Process>)

  datatype Event =
    | Tick(ms: nat)
    | Start(id: nat)
    | Check(id: nat)
    | Capture(id: nat)
    | Apply(id: nat)
    | ApplyFails(id: nat, applied: bool)
    | EndRun(id: nat, outcome: Outcome)
    | Release(id: nat)
    | ReleaseFails(id: nat, applied: bool)
    | Wake(id: nat)
    | Crash(id: nat)

  // ---------------------------------------------------------------------------------------------------
  // Steps
  // ---------------------------------------------------------------------------------------------------

  /** findOneAndUpdate with upsert succeeds unless another owner's lease is still valid at `now`; then the
      upsert collides with the existing document and fails with code 11000. */
  predicate CanTake(lock: Option<Lock>, id: nat, now: int) {
    lock.None? || lock.value.expiresAt <= now || lock.value.owner == id
  }

  function Taken(lock: Option<Lock>, id: nat, now: int): Option<Lock> {
    if CanTake(lock, id, now) then Some(Lock(id, now + LEASE_MS)) else lock
  }

  /** deleteOne({ _id, owner }) */
  function Released(lock: Option<Lock>, id: nat): Option<Lock> {
    if lock.Some? && lock.value.owner == id then None else lock
  }

  predicate IsIn(s: State, id: nat, phase: Phase) {
    id in s.processes && s.processes[id].phase == phase
  }

  predicate Enabled(s: State, e: Event) {
    match e
    case Tick(_) => true
    case Start(id) => id !in s.processes
    case Check(id) => IsIn(s, id, Checking)
    case Capture(id) => IsIn(s, id, Entered)
    case Apply(id) => id in s.processes && s.processes[id].phase.Captured?
    case ApplyFails(id, _) => id in s.processes && s.processes[id].phase.Captured?
    case EndRun(id, outcome) => id in s.processes && s.processes[id].phase.Running? && !outcome.Crashed?
    case Release(id) => id in s.processes && s.processes[id].phase.Releasing?
    case ReleaseFails(id, _) => id in s.processes && s.processes[id].phase.Releasing?
    case Wake(id) => id in s.processes && s.processes[id].phase.Sleeping? && s.processes[id].phase.wakeAt <= s.clock
    case Crash(id) => id in s.processes && !s.processes[id].phase.Finished?
  }

  function Moved(s: State, id: nat, phase: Phase, lock: Option<Lock>): State
    requires id in s.processes
  {
    s.(processes := s.processes[id := s.processes[id].(phase := phase)], lock := lock)
  }

  function Step(s: State, e: Event): State {
    if !Enabled(s, e) then s
    else
      match e
      case Tick(ms) => s.(clock := s.clock + ms)
      case Start(id) => s.(processes := s.processes[id := Process(s.clock + DEADLINE_MS, 0, Checking)])
      case Check(id) =>
        var p := s.processes[id];
        if s.clock < p.deadline then
          s.(processes := s.processes[id := p.(polls := p.polls + 1, phase := Entered)])
        else
          Moved(s, id, Finished(Threw), s.lock)
      case Capture(id) => Moved(s, id, Captured(s.clock), s.lock)
      case Apply(id) =>
        var now := s.processes[id].phase.now;
        if CanTake(s.lock, id, now) then Moved(s, id, Running(now + LEASE_MS), Taken(s.lock, id, now))
        else Moved(s, id, Sleeping(s.clock + POLL_MS), s.lock)
      case ApplyFails(id, applied) =>
        Moved(s, id, Finished(Threw), if applied then Taken(s.lock, id, s.processes[id].phase.now) else s.lock)
      case EndRun(id, outcome) => Moved(s, id, Releasing(outcome), s.lock)
      case Release(id) =>
        var outcome := s.processes[id].phase.outcome;
        Moved(s, id, if outcome.DuplicateKey? then Sleeping(s.clock + POLL_MS) else Finished(outcome),
              Released(s.lock, id))
      case ReleaseFails(id, applied) =>
        Moved(s, id, Finished(Threw), if applied then Released(s.lock, id) else s.lock)
      case Wake(id) => Moved(s, id, Checking, s.lock)
      case Crash(id) => Moved(s, id, Finished(Crashed), s.lock)
  }

  function Run(s: State, events: seq<Event>): State
    decreases |events|
  {
    if events == [] then s else Run(Step(s, events[0]), events[1..])
  }

  function Initial(clock: int): State {
    State(clock, None, map[])
  }

  // ---------------------------------------------------------------------------------------------------
  // Mutual exclusion
  // ---------------------------------------------------------------------------------------------------

  predicate IsRunning(s: State, id: nat) {
    id in s.processes && s.processes[id].phase.Running?
  }

  /** The process is running its migrations and its lease, 90 s after the `now` it captured, is not over. */
  predicate InLease(s: State, id: nat) {
    IsRunning(s, id) && s.clock < s.processes[id].phase.expiresAt
  }

  /** While a holder's lease is unexpired, the document carries its owner and its expiry. */
  ghost predicate LeaseHeld(s: State) {
    && (forall id <- s.processes :: s.processes[id].phase.Captured? ==> s.processes[id].phase.now <= s.clock)
    && (forall id <- s.processes :: InLease(s, id) ==> s.lock == Some(Lock(id, s.processes[id].phase.expiresAt)))
    && (s.lock.Some? ==> s.lock.value.expiresAt <= s.clock + LEASE_MS)
  }

  lemma StepKeepsLeaseHeld(s: State, e: Event)
    requires LeaseHeld(s)
    ensures LeaseHeld(Step(s, e))
  {
    var next := Step(s, e);
    forall id <- next.processes | InLease(next, id)
      ensures next.lock == Some(Lock(id, next.processes[id].phase.expiresAt))
    {
      if id in s.processes && next.processes[id] == s.processes[id] {
        assert InLease(s, id);
      }
    }
  }

  lemma {:induction false} RunKeepsLeaseHeld(s: State, events: seq<Event>)
    requires LeaseHeld(s)
    ensures LeaseHeld(Run(s, events))
    decreases |events|
  {
    if events != [] {
      StepKeepsLeaseHeld(s, events[0]);
      RunKeepsLeaseHeld(Step(s, events[0]), events[1..]);
    }
  }

  /** In every reachable state at most one process is running within its lease, and the lock is its. */
  lemma MutualExclusion(clock: int, events: seq<Event>, p: nat, q: nat)
    ensures var s := Run(Initial(clock), events);
            && (InLease(s, p) && InLease(s, q) ==> p == q)
            && (InLease(s, p) ==> s.lock == Some(Lock(p, s.processes[p].phase.expiresAt)))
  {
    RunKeepsLeaseHeld(Initial(clock), events);
  }

  /** Throughout the run of events, whenever `id` is running its lease has not expired. */
  ghost predicate Timely(clock: int, events: seq<Event>, id: nat) {
    forall k :: 0 <= k <= |events| ==>
      var s := Run(Initial(clock), events[..k]);
      IsRunning(s, id) ==> InLease(s, id)
  }

  /** Two processes that finish before their leases never overlap. */
  lemma TimelyRunsNeverOverlap(clock: int, events: seq<Event>, p: nat, q: nat, k: nat)
    requires Timely(clock, events, p) && Timely(clock, events, q) && k <= |events| && p != q
    ensures var s := Run(Initial(clock), events[..k]);
            !(IsRunning(s, p) && IsRunning(s, q))
  {
    MutualExclusion(clock, events[..k], p, q);
  }

  /** How long a lock still keeps other processes out. */
  function TimeLeft(s: State): nat {
    if s.lock.Some? && s.lock.value.expiresAt > s.clock then s.lock.value.expiresAt - s.clock else 0
  }

  /** The bound is sharp: in every reachable state, a run that outlasts its lease can be overlapped by any new
      process, as soon as the lock lets go. */
  lemma OverdueRunCanOverlap(clock: int, events: seq<Event>, p: nat, q: nat)
    requires var s := Run(Initial(clock), events);
             IsRunning(s, p) && !InLease(s, p) && q !in s.processes
    ensures var s := Run(Initial(clock), events);
            var next := Run(s, [Tick(TimeLeft(s))] + [Start(q), Check(q), Capture(q), Apply(q)]);
            && p != q && IsRunning(next, p) && !InLease(next, p) && InLease(next, q)
  {
    var s := Run(Initial(clock), events);
    var later := Step(s, Tick(TimeLeft(s)));
    NewProcessAcquires(later, p, q);
    RunConcat(s, [Tick(TimeLeft(s))], [Start(q), Check(q), Capture(q), Apply(q)]);
    hide Step, IsRunning, InLease;
    assert [Tick(TimeLeft(s))][1..] == [];
    assert Run(s, [Tick(TimeLeft(s))]) == Run(later, []) == later;
  }

  lemma NewProcessAcquires(s: State, p: nat, q: nat)
    requires IsRunning(s, p) && !InLease(s, p) && q !in s.processes
    requires s.lock.Some? ==> s.lock.value.expiresAt <= s.clock
    ensures var next := Run(s, [Start(q), Check(q), Capture(q), Apply(q)]);
            IsRunning(next, p) && !InLease(next, p) && InLease(next, q)
  {
    var next := Run4(s, Start(q), Check(q), Capture(q), Apply(q));
  }

  /** The state after four events in a row. */
  lemma Run4(s: State, a: Event, b: Event, c: Event, d: Event) returns (next: State)
    ensures next == Step(Step(Step(Step(s, a), b), c), d)
    ensures next == Run(s, [a, b, c, d])
  {
    hide Step;
    var s1 := Step(s, a);
    var s2 := Step(s1, b);
    var s3 := Step(s2, c);
    next := Step(s3, d);
    assert [a, b, c, d][1..] == [b, c, d] && [b, c, d][1..] == [c, d] && [c, d][1..] == [d];
    assert Run(s3, [d]) == next;
    assert Run(s2, [c, d]) == next;
    assert Run(s1, [b, c, d]) == next;
  }

  lemma {:induction false} RunConcat(s: State, first: seq<Event>, second: seq<Event>)
    ensures Run(s, first + second) == Run(Run(s, first), second)
    decreases |first|
  {
    if first == [] {
      assert first + second == second;
    } else {
      RunConcat(Step(s, first[0]), first[1..], second);
      assert (first + second)[1..] == first[1..] + second;
    }
  }

  // ---------------------------------------------------------------------------------------------------
  // Release
  // ---------------------------------------------------------------------------------------------------

  function ProcessOf(e: Event): Option<nat> {
    if e.Tick? then None else Some(e.id)
  }

  /** No step of another process touches the lock of a process within its lease: neither a late update with a
      stale `now`, nor the release of a run that was taken over, whether it succeeded or threw. */
  lemma HolderIsUndisturbed(clock: int, events: seq<Event>, holder: nat, e: Event)
    requires InLease(Run(Initial(clock), events), holder) && ProcessOf(e) != Some(holder)
    ensures var s := Run(Initial(clock), events);
            Step(s, e).lock == s.lock && Step(s, e).processes[holder] == s.processes[holder]
  {
    RunKeepsLeaseHeld(Initial(clock), events);
  }

  /** The lock is removed exactly by a release of its present owner, hence only after that owner's run ended. A
      release by a process whose lock was taken over, whether its run succeeded or threw, leaves it alone. */
  lemma OwnerFreesExactly(s: State, e: Event)
    requires s.lock.Some?
    ensures Step(s, e).lock.None? <==> IsOwnersRelease(s, e)
  {
  }

  /** The process whose lock it is has ended its run, and its release reaches the database. */
  predicate IsOwnersRelease(s: State, e: Event)
    requires s.lock.Some?
  {
    var owner := s.lock.value.owner;
    && owner in s.processes && s.processes[owner].phase.Releasing?
    && (e == Release(owner) || e == ReleaseFails(owner, true))
  }

  predicate FreedAt(s: State, events: seq<Event>, k: int) {
    && 0 <= k < |events|
    && var before := Run(s, events[..k]);
       before.lock.Some? && IsOwnersRelease(before, events[k])
  }

  /** Whenever a lock is gone, however many times it changed hands before, the release of the process that owned it
      at that moment removed it. */
  lemma {:induction false} LockIsFreedByItsOwner(s: State, events: seq<Event>)
    requires s.lock.Some? && Run(s, events).lock.None?
    ensures exists k :: FreedAt(s, events, k)
    decreases |events|
  {
    hide Step, IsOwnersRelease;
    if Step(s, events[0]).lock.None? {
      OwnerFreesExactly(s, events[0]);
      assert Run(s, events[..0]) == s;
      assert FreedAt(s, events, 0);
    } else {
      var next, rest := Step(s, events[0]), events[1..];
      LockIsFreedByItsOwner(next, rest);
      var k :| FreedAt(next, rest, k);
      assert events[..k + 1][1..] == rest[..k];
      assert FreedAt(s, events, k + 1);
    }
  }

  lemma ClockOnlyAdvances(s: State, e: Event)
    ensures Step(s, e).clock >= s.clock
  {
  }

  lemma {:induction false} RunOnlyAdvances(s: State, events: seq<Event>)
    ensures Run(s, events).clock >= s.clock
    decreases |events|
  {
    if events != [] {
      ClockOnlyAdvances(s, events[0]);
      RunOnlyAdvances(Step(s, events[0]), events[1..]);
    }
  }

  predicate WithoutProcess(events: seq<Event>, id: nat) {
    forall e <- events :: ProcessOf(e) != Some(id)
  }

  lemma OthersKeepTheLock(s: State, e: Event)
    requires LeaseHeld(s) && s.lock.Some? && ProcessOf(e) != Some(s.lock.value.owner)
    requires s.clock < s.lock.value.expiresAt
    ensures Step(s, e).lock == s.lock
  {
  }

  lemma {:induction false} LockIsKept(s: State, events: seq<Event>)
    requires LeaseHeld(s) && s.lock.Some? && WithoutProcess(events, s.lock.value.owner)
    requires Run(s, events).clock < s.lock.value.expiresAt
    ensures Run(s, events).lock == s.lock
    decreases |events|
  {
    hide Step;
    if events != [] {
      RunOnlyAdvances(Step(s, events[0]), events[1..]);
      ClockOnlyAdvances(s, events[0]);
      assert events[0] in events && forall e <- events[1..] :: e in events;
      OthersKeepTheLock(s, events[0]);
      StepKeepsLeaseHeld(s, events[0]);
      LockIsKept(Step(s, events[0]), events[1..]);
    }
  }

  /** From every reachable state and through every run in which its owner does nothing, a lock stays as it is until
      it expires: no release and no late update of others removes or replaces it. */
  lemma LockStaysUntilExpiry(clock: int, history: seq<Event>, events: seq<Event>)
    requires var s := Run(Initial(clock), history);
             && s.lock.Some? && WithoutProcess(events, s.lock.value.owner)
             && Run(s, events).clock < s.lock.value.expiresAt
    ensures var s := Run(Initial(clock), history);
            Run(s, events).lock == s.lock
  {
    RunKeepsLeaseHeld(Initial(clock), history);
    LockIsKept(Run(Initial(clock), history), events);
  }

  /** A run that ends within its lease frees the lock when it releases at once, and then the process ends as the run
      did. */
  lemma TimelyReleaseFrees(clock: int, events: seq<Event>, id: nat, outcome: Outcome)
    requires InLease(Run(Initial(clock), events), id) && !outcome.Crashed?
    ensures var released := Step(Step(Run(Initial(clock), events), EndRun(id, outcome)), Release(id));
            && released.lock == None
            && (outcome != DuplicateKey ==> IsIn(released, id, Finished(outcome)))
  {
    RunKeepsLeaseHeld(Initial(clock), events);
  }

  // ---------------------------------------------------------------------------------------------------
  // Termination of the polling loop
  // ---------------------------------------------------------------------------------------------------

  /** The time from which the next iteration may begin. */
  ghost predicate Paced(clock: int, p: Process) {
    var start := p.deadline - DEADLINE_MS;
    && p.polls <= MAX_POLLS
    && match p.phase
       case Checking => start + POLL_MS * p.polls <= clock
       case Sleeping(wakeAt) => start + POLL_MS * p.polls <= wakeAt
       case Finished(_) => true
       case _ => start + POLL_MS * (p.polls - 1) <= clock
  }

  ghost predicate AllPaced(s: State) {
    forall id <- s.processes :: Paced(s.clock, s.processes[id])
  }

  lemma StepKeepsPaced(s: State, e: Event)
    requires AllPaced(s)
    ensures AllPaced(Step(s, e))
  {
    var next := Step(s, e);
    forall id <- next.processes ensures Paced(next.clock, next.processes[id]) {
      if id in s.processes {
        assert Paced(s.clock, s.processes[id]);
      }
    }
  }

  /** What a process can still do. Every step it takes lowers it. */
  function Remaining(p: Process): int {
    if p.phase.Finished? then 0
    else
      6 * (MAX_POLLS - p.polls)
      + match p.phase
        case Entered => 6
        case Captured(_) => 5
        case Running(_) => 4
        case Releasing(_) => 3
        case Sleeping(_) => 2
        case _ => 1
  }

  function RemainingOf(s: State, id: nat): int {
    if id in s.processes then Remaining(s.processes[id]) else 6 * MAX_POLLS + 2
  }

  lemma StepLowersRemaining(s: State, e: Event, id: nat)
    requires AllPaced(s)
    ensures 0 <= RemainingOf(Step(s, e), id) <= RemainingOf(s, id)
    ensures ProcessOf(e) == Some(id) && Enabled(s, e) ==> RemainingOf(Step(s, e), id) < RemainingOf(s, id)
  {
    StepKeepsPaced(s, e);
    if id in s.processes {
      assert Paced(s.clock, s.processes[id]);
    }
  }

  /** The number of steps that `id` actually takes in a run. */
  function StepsTaken(s: State, events: seq<Event>, id: nat): nat
    decreases |events|
  {
    if events == [] then 0
    else
      (if ProcessOf(events[0]) == Some(id) && Enabled(s, events[0]) then 1 else 0)
      + StepsTaken(Step(s, events[0]), events[1..], id)
  }

  lemma {:induction false} StepsAreBounded(s: State, events: seq<Event>, id: nat)
    requires AllPaced(s)
    ensures StepsTaken(s, events, id) <= RemainingOf(s, id)
    ensures AllPaced(Run(s, events))
    decreases |events|
  {
    if events == [] {
      if id in s.processes {
        assert Paced(s.clock, s.processes[id]);
      }
    } else {
      StepKeepsPaced(s, events[0]);
      StepLowersRemaining(s, events[0], id);
      StepsAreBounded(Step(s, events[0]), events[1..], id);
    }
  }

  /** The polling loop terminates: whatever the interleaving, a process begins at most 300 iterations and takes
      at most 1802 steps in all. */
  lemma PollingTerminates(clock: int, events: seq<Event>, id: nat)
    ensures var s := Run(Initial(clock), events);
            && StepsTaken(Initial(clock), events, id) <= 1802
            && (id in s.processes ==> s.processes[id].polls <= 300)
  {
    StepsAreBounded(Initial(clock), events, id);
    var s := Run(Initial(clock), events);
    if id in s.processes {
      assert Paced(s.clock, s.processes[id]);
    }
  }

  // ---------------------------------------------------------------------------------------------------
  // A waiter behind a crashed holder
  // ---------------------------------------------------------------------------------------------------

  /** By how much the steps of one polling iteration are late. */
  datatype Lag = Lag(beforeCheck: nat, beforeCapture: nat, beforeApply: nat, beforeWake: nat)
  {
    function Total(): nat {
      beforeCheck + beforeCapture + beforeApply + beforeWake
    }
  }

  /** An iteration up to its update of the lock. */
  function Attempt(id: nat, lag: Lag): seq<Event> {
    [Tick(lag.beforeCheck), Check(id), Tick(lag.beforeCapture), Capture(id)] + [Tick(lag.beforeApply), Apply(id)]
  }

  /** An iteration that finds the lock taken. */
  function Poll(id: nat, lag: Lag): seq<Event> {
    Attempt(id, lag) + [Tick(POLL_MS + lag.beforeWake), Wake(id)]
  }

  /** From the k-th iteration on, `n` that find the lock taken, and one more attempt. */
  function PollsAndAttempt(id: nat, lags: nat -> Lag, k: nat, n: nat): seq<Event>
    decreases n
  {
    if n == 0 then Attempt(id, lags(k)) else Poll(id, lags(k)) + PollsAndAttempt(id, lags, k + 1, n - 1)
  }

  /** The waiter is about to check the deadline, and the lock belongs to someone else. */
  predicate Waiting(s: State, id: nat, deadline: int, lock: Lock) {
    && id in s.processes && s.processes[id].phase == Checking && s.processes[id].deadline == deadline
    && s.lock == Some(lock) && lock.owner != id
  }

  lemma AttemptInTime(s: State, id: nat, deadline: int, lock: Lock, lag: Lag)
    requires Waiting(s, id, deadline, lock) && s.clock + lag.beforeCheck < deadline
    ensures var next := Run(s, Attempt(id, lag));
            var now := s.clock + lag.beforeCheck + lag.beforeCapture;
            && next.clock == now + lag.beforeApply && id in next.processes
            && next.processes[id].deadline == deadline
            && if lock.expiresAt <= now then
                 && next.processes[id].phase == Running(now + LEASE_MS)
                 && next.lock == Some(Lock(id, now + LEASE_MS))
               else next.processes[id].phase == Sleeping(next.clock + POLL_MS) && next.lock == Some(lock)
  {
    var s4 := Run4(s, Tick(lag.beforeCheck), Check(id), Tick(lag.beforeCapture), Capture(id));
    RunConcat(s, [Tick(lag.beforeCheck), Check(id), Tick(lag.beforeCapture), Capture(id)],
              [Tick(lag.beforeApply), Apply(id)]);
    Run2(s4, Tick(lag.beforeApply), Apply(id));
  }

  lemma Run2(s: State, a: Event, b: Event)
    ensures Run(s, [a, b]) == Step(Step(s, a), b)
  {
    hide Step;
    assert [a, b][1..] == [b] && [b][1..] == [];
    assert Run(Step(s, a), [b]) == Run(Step(Step(s, a), b), []);
  }

  lemma FailedPoll(s: State, id: nat, deadline: int, lock: Lock, lag: Lag)
    requires Waiting(s, id, deadline, lock) && s.clock + lag.beforeCheck < deadline
    requires s.clock + lag.beforeCheck + lag.beforeCapture < lock.expiresAt
    ensures var next := Run(s, Poll(id, lag));
            Waiting(next, id, deadline, lock) && next.clock == s.clock + POLL_MS + lag.Total()
  {
    AttemptInTime(s, id, deadline, lock, lag);
    var attempted := Run(s, Attempt(id, lag));
    RunConcat(s, Attempt(id, lag), [Tick(POLL_MS + lag.beforeWake), Wake(id)]);
    Run2(attempted, Tick(POLL_MS + lag.beforeWake), Wake(id));
    hide Run, Attempt;
  }

  /** However late each iteration is, up to `bound`, the waiter takes the lock after some number of iterations. */
  lemma {:induction false} LateWaiterAcquires(s: State, id: nat, deadline: int, lock: Lock, lags: nat -> Lag, k: nat,
                                              bound: nat)
    returns (n: nat)
    requires Waiting(s, id, deadline, lock) && forall j: nat :: lags(j).Total() <= bound
    requires s.clock + bound < deadline && lock.expiresAt + POLL_MS + 2 * bound <= deadline && bound < LEASE_MS
    ensures var done := Run(s, PollsAndAttempt(id, lags, k, n));
            && InLease(done, id) && done.lock == Some(Lock(id, done.processes[id].phase.expiresAt))
            && (done.clock <= s.clock + bound || done.clock < lock.expiresAt + POLL_MS + 2 * bound)
    decreases lock.expiresAt - s.clock
  {
    var lag := lags(k);
    assert lag.Total() <= bound;
    hide Run, Poll, Attempt, Waiting, InLease;
    if s.clock + lag.beforeCheck + lag.beforeCapture < lock.expiresAt {
      FailedPoll(s, id, deadline, lock, lag);
      var next := Run(s, Poll(id, lag));
      var m := LateWaiterAcquires(next, id, deadline, lock, lags, k + 1, bound);
      n := m + 1;
      RunConcat(s, Poll(id, lag), PollsAndAttempt(id, lags, k + 1, m));
    } else {
      n := 0;
      AttemptAcquires(s, id, deadline, lock, lag, bound);
    }
  }

  lemma AttemptAcquires(s: State, id: nat, deadline: int, lock: Lock, lag: Lag, bound: nat)
    requires Waiting(s, id, deadline, lock) && lag.Total() <= bound < LEASE_MS && s.clock + bound < deadline
    requires lock.expiresAt <= s.clock + lag.beforeCheck + lag.beforeCapture
    ensures var done := Run(s, Attempt(id, lag));
            && InLease(done, id) && done.lock == Some(Lock(id, done.processes[id].phase.expiresAt))
            && done.clock <= s.clock + bound
  {
    AttemptInTime(s, id, deadline, lock, lag);
    hide Run, Attempt;
  }

  /** The lag that a waiter can have in every iteration without missing its deadline. */
  const MAX_LAG_MS := (DEADLINE_MS - LEASE_MS - POLL_MS) / 2

  lemma WaiterAcquiresFrom(s: State, id: nat, lags: nat -> Lag, bound: nat) returns (n: nat)
    requires LeaseHeld(s) && id !in s.processes && s.lock.Some? && s.lock.value.owner != id
    requires bound <= MAX_LAG_MS && forall j: nat :: lags(j).Total() <= bound
    ensures var done := Run(s, [Start(id)] + PollsAndAttempt(id, lags, 0, n));
            && InLease(done, id) && done.lock == Some(Lock(id, done.processes[id].phase.expiresAt))
            && (done.clock <= s.clock + bound || done.clock < s.lock.value.expiresAt + POLL_MS + 2 * bound)
            && done.clock < s.clock + DEADLINE_MS
  {
    var lock, deadline := s.lock.value, s.clock + DEADLINE_MS;
    var started := Step(s, Start(id));
    assert Waiting(started, id, deadline, lock) && started.clock == s.clock;
    hide Step, InLease, Waiting, PollsAndAttempt;
    assert Run(s, [Start(id)]) == started by {
      assert [Start(id)][1..] == [] && Run(started, []) == started;
    }
    n := LateWaiterAcquires(started, id, deadline, lock, lags, 0, bound);
    RunConcat(s, [Start(id)], PollsAndAttempt(id, lags, 0, n));
  }

  /** A lone waiter that starts behind a crashed holder, in any reachable state, and is at most `bound` late in each
      iteration, acquires the lock less than one poll and twice the bound after the holder's lease ends, and before
      its own 120 s deadline. With no lag that is within 90 s + 400 ms. */
  lemma WaiterAcquires(clock: int, events: seq<Event>, id: nat, lags: nat -> Lag, bound: nat) returns (n: nat)
    requires var s := Run(Initial(clock), events);
             id !in s.processes && s.lock.Some? && s.lock.value.owner != id
    requires bound <= MAX_LAG_MS && forall j: nat :: lags(j).Total() <= bound
    ensures var s := Run(Initial(clock), events);
            var done := Run(s, [Start(id)] + PollsAndAttempt(id, lags, 0, n));
            && InLease(done, id) && done.lock == Some(Lock(id, done.processes[id].phase.expiresAt))
            && (done.clock <= s.clock + bound || done.clock < s.lock.value.expiresAt + POLL_MS + 2 * bound)
            && done.clock < s.clock + DEADLINE_MS
  {
    RunKeepsLeaseHeld(Initial(clock), events);
    hide Step, Initial, LeaseHeld, PollsAndAttempt, InLease;
    n := WaiterAcquiresFrom(Run(Initial(clock), events), id, lags, bound);
  }

  // ---------------------------------------------------------------------------------------------------
  // How a process ends
  // ---------------------------------------------------------------------------------------------------

  predicate IsFinished(s: State, id: nat) {
    id in s.processes && s.processes[id].phase.Finished?
  }

  /** A process that has ended has ended for good, with the same outcome. */
  lemma {:induction false} FinishedStays(s: State, events: seq<Event>, id: nat)
    requires IsFinished(s, id)
    ensures IsFinished(Run(s, events), id) && Run(s, events).processes[id] == s.processes[id]
    decreases |events|
  {
    if events != [] {
      assert IsFinished(Step(s, events[0]), id) && Step(s, events[0]).processes[id] == s.processes[id];
      FinishedStays(Step(s, events[0]), events[1..], id);
    }
  }

  lemma {:induction false} OthersLeaveProcess(s: State, events: seq<Event>, id: nat)
    requires id in s.processes && WithoutProcess(events, id)
    ensures id in Run(s, events).processes && Run(s, events).processes[id] == s.processes[id]
    decreases |events|
  {
    if events != [] {
      assert events[0] in events && forall e <- events[1..] :: e in events;
      assert id in Step(s, events[0]).processes && Step(s, events[0]).processes[id] == s.processes[id];
      OthersLeaveProcess(Step(s, events[0]), events[1..], id);
    }
  }

  /** What a migration run ended with is what the process ends with, once it released the lock, and for ever: success
      and failure are passed on, whatever the other processes do. Only a duplicate-key error starts another
      iteration. */
  lemma OutcomeIsPassedOn(s: State, id: nat, outcome: Outcome, between: seq<Event>, later: seq<Event>)
    requires IsRunning(s, id) && (outcome == Succeeded || outcome == Threw) && WithoutProcess(between, id)
    ensures IsIn(Run(s, [EndRun(id, outcome)] + between + [Release(id)] + later), id, Finished(outcome))
  {
    var ended := Step(s, EndRun(id, outcome));
    var waited := Run(ended, between);
    var released := Step(waited, Release(id));
    OthersLeaveProcess(ended, between, id);
    assert IsIn(released, id, Finished(outcome));
    FinishedStays(released, later, id);
    var events := [EndRun(id, outcome)] + between + [Release(id)] + later;
    assert events == [EndRun(id, outcome)] + (between + ([Release(id)] + later));
    RunCons(s, EndRun(id, outcome), between + ([Release(id)] + later));
    RunConcat(ended, between, [Release(id)] + later);
    RunCons(waited, Release(id), later);
    hide Run, Step;
  }

  lemma DuplicateKeyRetries(s: State, id: nat, between: seq<Event>)
    requires IsRunning(s, id) && WithoutProcess(between, id)
    ensures var next := Run(s, [EndRun(id, DuplicateKey)] + between + [Release(id)]);
            IsIn(next, id, Sleeping(next.clock + POLL_MS))
  {
    var ended := Step(s, EndRun(id, DuplicateKey));
    var waited := Run(ended, between);
    OthersLeaveProcess(ended, between, id);
    var events := [EndRun(id, DuplicateKey)] + between + [Release(id)];
    assert events == [EndRun(id, DuplicateKey)] + (between + [Release(id)]);
    RunCons(s, EndRun(id, DuplicateKey), between + [Release(id)]);
    RunConcat(ended, between, [Release(id)]);
    RunCons(waited, Release(id), []);
    assert [Release(id)] + [] == [Release(id)];
    assert Run(Step(waited, Release(id)), []) == Step(waited, Release(id));
    hide Run;
  }

  lemma RunCons(s: State, e: Event, events: seq<Event>)
    ensures Run(s, [e] + events) == Run(Step(s, e), events)
  {
    assert ([e] + events)[1..] == events;
  }

  /** A deadline that passed, an update that failed and a release that failed. */
  predicate Fails(s: State, e: Event) {
    Enabled(s, e) && ((e.Check? && s.clock >= s.processes[e.id].deadline) || e.ApplyFails? || e.ReleaseFails?)
  }

  /** They end the process with an error, for ever. */
  lemma FailuresArePassedOn(s: State, e: Event, later: seq<Event>)
    requires Fails(s, e)
    ensures IsIn(Run(s, [e] + later), e.id, Finished(Threw))
  {
    assert IsIn(Step(s, e), e.id, Finished(Threw));
    FinishedStays(Step(s, e), later, e.id);
    RunCons(s, e, later);
  }

  function At(clock: int, events: seq<Event>, k: nat): State
    requires k <= |events|
  {
    Run(Initial(clock), events[..k])
  }

  lemma {:induction false} AtNext(clock: int, events: seq<Event>, k: nat)
    requires k < |events|
    ensures At(clock, events, k + 1) == Step(At(clock, events, k), events[k])
  {
    assert events[..k + 1] == events[..k] + [events[k]];
    RunConcat(Initial(clock), events[..k], [events[k]]);
    RunCons(At(clock, events, k), events[k], []);
    assert [events[k]] + [] == [events[k]];
  }

  /** Event `a` is an update by which `id` takes the lock, for 90 s from the `now` it had captured. */
  predicate TakesLockAt(clock: int, events: seq<Event>, id: nat, a: nat)
    requires a < |events|
  {
    var before, after := At(clock, events, a), At(clock, events, a + 1);
    && events[a] == Apply(id) && id in before.processes && before.processes[id].phase.Captured?
    && after.lock == Some(Lock(id, before.processes[id].phase.now + 90_000))
  }

  predicate RunsThrough(clock: int, events: seq<Event>, id: nat, a: nat, b: nat)
    requires b <= |events|
  {
    forall k | a < k <= b :: IsRunning(At(clock, events, k), id)
  }

  predicate ReleasesThrough(clock: int, events: seq<Event>, id: nat, outcome: Outcome, b: nat, c: nat)
    requires c <= |events|
  {
    forall k | b < k <= c :: IsIn(At(clock, events, k), id, Releasing(outcome))
  }

  lemma {:induction false} RunningTookTheLock(clock: int, events: seq<Event>, id: nat, k: nat)
    requires k <= |events| && IsRunning(At(clock, events, k), id)
    ensures exists a: nat :: a < k && TakesLockAt(clock, events, id, a) && RunsThrough(clock, events, id, a, k)
    decreases k
  {
    if k > 0 {
      AtNext(clock, events, k - 1);
      var before := At(clock, events, k - 1);
      hide At;
      if IsRunning(before, id) {
        RunningTookTheLock(clock, events, id, k - 1);
        var a: nat :| a < k - 1 && TakesLockAt(clock, events, id, a) && RunsThrough(clock, events, id, a, k - 1);
        assert RunsThrough(clock, events, id, a, k);
      } else {
        assert TakesLockAt(clock, events, id, k - 1) && RunsThrough(clock, events, id, k - 1, k);
      }
    }
  }

  lemma {:induction false} ReleasingEndedItsRun(clock: int, events: seq<Event>, id: nat, outcome: Outcome, k: nat)
    requires k <= |events| && IsIn(At(clock, events, k), id, Releasing(outcome))
    ensures exists b: nat ::
              && b < k && events[b] == EndRun(id, outcome) && IsRunning(At(clock, events, b), id)
              && ReleasesThrough(clock, events, id, outcome, b, k)
    decreases k
  {
    if k > 0 {
      AtNext(clock, events, k - 1);
      var before := At(clock, events, k - 1);
      hide At;
      if IsIn(before, id, Releasing(outcome)) {
        ReleasingEndedItsRun(clock, events, id, outcome, k - 1);
        var b: nat :| b < k - 1 && events[b] == EndRun(id, outcome) && IsRunning(At(clock, events, b), id)
                      && ReleasesThrough(clock, events, id, outcome, b, k - 1);
        assert ReleasesThrough(clock, events, id, outcome, b, k);
      } else {
        assert events[k - 1] == EndRun(id, outcome) && IsRunning(before, id);
        assert ReleasesThrough(clock, events, id, outcome, k - 1, k);
      }
    }
  }

  /** The history of a success: at `a` the process took the lock, it ran until its migrations succeeded at `b`, and
      nothing happened to it until its release at `c`. */
  predicate SucceedsBy(clock: int, events: seq<Event>, id: nat, a: nat, b: nat, c: nat) {
    && a < b < c < |events|
    && TakesLockAt(clock, events, id, a) && RunsThrough(clock, events, id, a, b)
    && events[b] == EndRun(id, Succeeded) && ReleasesThrough(clock, events, id, Succeeded, b, c)
    && events[c] == Release(id)
  }

  lemma {:induction false} SuccessHasAHistory(clock: int, events: seq<Event>, id: nat, k: nat)
    requires k <= |events| && IsIn(At(clock, events, k), id, Finished(Succeeded))
    ensures exists a: nat, b: nat, c: nat :: SucceedsBy(clock, events, id, a, b, c)
    decreases k
  {
    if k > 0 {
      AtNext(clock, events, k - 1);
      var before := At(clock, events, k - 1);
      hide At;
      if IsIn(before, id, Finished(Succeeded)) {
        SuccessHasAHistory(clock, events, id, k - 1);
      } else {
        assert events[k - 1] == Release(id) && IsIn(before, id, Releasing(Succeeded));
        ReleasingEndedItsRun(clock, events, id, Succeeded, k - 1);
        var b: nat :| b < k - 1 && events[b] == EndRun(id, Succeeded) && IsRunning(At(clock, events, b), id)
                      && ReleasesThrough(clock, events, id, Succeeded, b, k - 1);
        RunningTookTheLock(clock, events, id, b);
        var a: nat :| a < b && TakesLockAt(clock, events, id, a) && RunsThrough(clock, events, id, a, b);
        assert SucceedsBy(clock, events, id, a, b, k - 1);
      }
    }
  }

  lemma HistoryGivesSuccess(clock: int, events: seq<Event>, id: nat, c: nat)
    requires c < |events| && IsIn(At(clock, events, c), id, Releasing(Succeeded)) && events[c] == Release(id)
    ensures IsIn(Run(Initial(clock), events), id, Finished(Succeeded))
  {
    AtNext(clock, events, c);
    assert IsIn(At(clock, events, c + 1), id, Finished(Succeeded));
    FinishedStays(At(clock, events, c + 1), events[c + 1..], id);
    RunConcat(Initial(clock), events[..c + 1], events[c + 1..]);
    assert events[..c + 1] + events[c + 1..] == events;
    hide Run, Step;
  }

  /** A process reports success exactly when it took the lock, ran its migrations until they succeeded, and released
      the lock: over every run of events. */
  lemma SucceedsExactly(clock: int, events: seq<Event>, id: nat)
    ensures IsIn(Run(Initial(clock), events), id, Finished(Succeeded)) <==>
              exists a: nat, b: nat, c: nat :: SucceedsBy(clock, events, id, a, b, c)
  {
    assert events[..|events|] == events && At(clock, events, |events|) == Run(Initial(clock), events);
    hide Run, Initial, At, TakesLockAt, RunsThrough;
    if IsIn(Run(Initial(clock), events), id, Finished(Succeeded)) {
      SuccessHasAHistory(clock, events, id, |events|);
    }
    if a: nat, b: nat, c: nat :| SucceedsBy(clock, events, id, a, b, c) {
      HistoryGivesSuccess(clock, events, id, c);
    }
  }

  // ---------------------------------------------------------------------------------------------------
  // A waiter that is too late
  // ---------------------------------------------------------------------------------------------------

  /** Lags of one millisecond above the bound: six iterations bring the waiter to the last millisecond of a full lease,
      and the next two are late between them by 29.602 s. */
  function LateLags(k: nat): Lag {
    if k == 5 then Lag(0, 0, 0, 13_594)
    else if k <= 6 then Lag(0, 0, 0, MAX_LAG_MS + 1)
    else Lag(MAX_LAG_MS + 1, 0, 0, 0)
  }

  /** How long the waiter has been at it before the k-th iteration. */
  function LateBy(k: nat): nat {
    if k == 0 then 0 else LateBy(k - 1) + POLL_MS + LateLags(k - 1).Total()
  }

  lemma LateTimes()
    ensures forall k: nat | k <= 5 :: LateBy(k) < LEASE_MS
    ensures LateBy(6) == LEASE_MS - 1 && LateBy(7) + MAX_LAG_MS + 1 >= DEADLINE_MS
  {
    assert LateBy(1) == 15_201 && LateBy(2) == 30_402 && LateBy(3) == 45_603;
    assert LateBy(4) == 60_804 && LateBy(5) == 76_005;
  }

  lemma TooLateToCheck(s: State, id: nat, deadline: int, lock: Lock, rest: seq<Event>, late: nat)
    requires Waiting(s, id, deadline, lock) && s.clock + late >= deadline
    ensures IsFinished(Run(s, [Tick(late), Check(id)] + rest), id)
  {
    Run2(s, Tick(late), Check(id));
    RunConcat(s, [Tick(late), Check(id)], rest);
    FinishedStays(Run(s, [Tick(late), Check(id)]), rest, id);
  }

  lemma TooLateAtLast(s: State, id: nat, start: int, lock: Lock, n: nat)
    requires Waiting(s, id, start + DEADLINE_MS, lock) && s.clock == start + LateBy(7)
    ensures !InLease(Run(s, PollsAndAttempt(id, LateLags, 7, n)), id)
  {
    LateTimes();
    StartsWithCheck(id, n);
    hide PollsAndAttempt, LateBy, Waiting, Run;
    TooLateToCheck(s, id, start + DEADLINE_MS, lock, PollsAndAttempt(id, LateLags, 7, n)[2..], MAX_LAG_MS + 1);
  }

  lemma EarlyLags(k: nat)
    requires k <= 6
    ensures LateBy(k) < LEASE_MS && LateLags(k).beforeCheck == 0 && LateLags(k).beforeCapture == 0
    ensures LateBy(k + 1) == LateBy(k) + POLL_MS + LateLags(k).Total()
  {
    LateTimes();
  }

  /** With these lags the waiter never runs, however many iterations one waits for. */
  lemma {:induction false} LateWaiterNeverRuns(s: State, id: nat, start: int, lock: Lock, k: nat, n: nat)
    requires k <= 7 && Waiting(s, id, start + DEADLINE_MS, lock) && s.clock == start + LateBy(k)
    requires lock.expiresAt == start + LEASE_MS
    ensures !InLease(Run(s, PollsAndAttempt(id, LateLags, k, n)), id)
    decreases 7 - k
  {
    hide Run, Poll, Attempt, LateBy, LateLags, Waiting, InLease;
    if k == 7 {
      TooLateAtLast(s, id, start, lock, n);
    } else {
      var lag := LateLags(k);
      EarlyLags(k);
      if n == 0 {
        AttemptFails(s, id, start + DEADLINE_MS, lock, lag);
      } else {
        FailedPoll(s, id, start + DEADLINE_MS, lock, lag);
        RunConcat(s, Poll(id, lag), PollsAndAttempt(id, LateLags, k + 1, n - 1));
        LateWaiterNeverRuns(Run(s, Poll(id, lag)), id, start, lock, k + 1, n - 1);
      }
    }
  }

  lemma AttemptFails(s: State, id: nat, deadline: int, lock: Lock, lag: Lag)
    requires Waiting(s, id, deadline, lock) && s.clock + lag.beforeCheck < deadline
    requires s.clock + lag.beforeCheck + lag.beforeCapture < lock.expiresAt
    ensures !InLease(Run(s, Attempt(id, lag)), id)
  {
    AttemptInTime(s, id, deadline, lock, lag);
    hide Run, Attempt;
  }

  lemma StartsWithCheck(id: nat, n: nat)
    ensures var events := PollsAndAttempt(id, LateLags, 7, n);
            |events| >= 2 && events == [Tick(MAX_LAG_MS + 1), Check(id)] + events[2..]
  {
    var events := PollsAndAttempt(id, LateLags, 7, n);
    var attempt := Attempt(id, LateLags(7));
    assert attempt[0] == Tick(MAX_LAG_MS + 1) && attempt[1] == Check(id);
    if n > 0 {
      assert events[0] == attempt[0] && events[1] == attempt[1];
    }
  }

  /** A waiter may be up to `bound` late in every iteration. */
  ghost predicate LagsWithin(lags: nat -> Lag, bound: nat) {
    forall j: nat :: lags(j).Total() <= bound
  }

  /** The lock belongs to another process and the waiter is new. */
  predicate WaitsBehind(s: State, id: nat) {
    id !in s.processes && s.lock.Some? && s.lock.value.owner != id
  }

  predicate AcquiresAfter(s: State, id: nat, lags: nat -> Lag, n: nat) {
    InLease(Run(s, [Start(id)] + PollsAndAttempt(id, lags, 0, n)), id)
  }

  lemma LateWaiterExists(clock: int)
    ensures var s := Run(Initial(clock), [Start(0), Check(0), Capture(0), Apply(0)]);
            WaitsBehind(s, 1) && forall n: nat :: !AcquiresAfter(s, 1, LateLags, n)
  {
    var s := Run4(Initial(clock), Start(0), Check(0), Capture(0), Apply(0));
    var lock := Lock(0, clock + LEASE_MS);
    assert s.clock == clock && s.lock == Some(lock) && 1 !in s.processes;
    var started := Step(s, Start(1));
    assert Waiting(started, 1, clock + DEADLINE_MS, lock) && started.clock == clock + LateBy(0);
    hide Step, Waiting, InLease, LateBy;
    assert Run(s, [Start(1)]) == started by {
      assert [Start(1)][1..] == [] && Run(started, []) == started;
    }
    forall n: nat ensures !AcquiresAfter(s, 1, LateLags, n) {
      RunConcat(s, [Start(1)], PollsAndAttempt(1, LateLags, 0, n));
      LateWaiterNeverRuns(started, 1, clock, lock, 0, n);
    }
  }

  /** 14.8 s is the largest lag with which every waiter acquires the lock, from every reachable state. */
  lemma WaiterAcquiresExactly(bound: nat)
    ensures bound <= 14_800 <==>
              forall clock: int, events: seq<Event>, id: nat, lags: nat -> Lag |
                LagsWithin(lags, bound) && WaitsBehind(Run(Initial(clock), events), id) ::
                exists n: nat :: AcquiresAfter(Run(Initial(clock), events), id, lags, n)
  {
    if bound <= MAX_LAG_MS {
      forall clock: int, events: seq<Event>, id: nat, lags: nat -> Lag |
        LagsWithin(lags, bound) && WaitsBehind(Run(Initial(clock), events), id)
        ensures exists n: nat :: AcquiresAfter(Run(Initial(clock), events), id, lags, n)
      {
        hide Run, InLease, PollsAndAttempt;
        var n := WaiterAcquires(clock, events, id, lags, bound);
        assert AcquiresAfter(Run(Initial(clock), events), id, lags, n);
      }
    } else {
      LateWaiterExists(0);
      assert LagsWithin(LateLags, bound);
      hide Run, AcquiresAfter, LagsWithin, WaitsBehind;
      var events := [Start(0), Check(0), Capture(0), Apply(0)];
      assert !exists n: nat :: AcquiresAfter(Run(Initial(0), events), 1, LateLags, n);
    }
  }
}
