/** The scheduler from its start to its end: a job is served, and a shutdown stops the worker. */
module SchedulerShutdown {
  import opened Basics
  import opened Wrappers
  import opened Scheduler
  import opened SchedulerSafety
  import opened SchedulerProgress

  // ---------------------------------------------------------------- a job is served

  /** The state after `n` steps of a worker whose device accepts everything. */
  function Worked(s: State, n: nat): State {
    if n == 0 then s else Do(Worked(s, n - 1), Works(0, Done, false))
  }

  lemma WorkedTwo(s: State)
    ensures Worked(s, 1) == Do(s, Works(0, Done, false))
    ensures Worked(s, 2) == Do(Do(s, Works(0, Done, false)), Works(0, Done, false))
  {
    assert Worked(s, 1) == Do(Worked(s, 0), Works(0, Done, false));
  }

  lemma {:induction false} WorkedMore(s: State, m: nat, n: nat)
    ensures Worked(s, m + n) == Worked(Worked(s, m), n)
    decreases n
  {
    if n > 0 { WorkedMore(s, m, n - 1); }
  }

  /** A scheduler that has taken its first job. */
  function Taken(capacity: nat, job: Job, worker: Worker, now: nat): State {
    State(capacity, 1, [], [], [Scheduled(job, job.notBefore, None, 0, 0, 0, 0)], 1, 1, true, false, false,
          worker, None, now, Then(Start, Accepted(job.id)))
  }

  /** It schedules the job and waits for its time. */
  lemma WaitsForJob(capacity: nat, job: Job)
    requires capacity >= 1 && job.notBefore > 0
    ensures Worked(Do(Do(Initial(capacity), Submits(job)), Sends(0)), 4)
            == Taken(capacity, job, Waiting(job.notBefore), 0)
  {
    var s := Do(Do(Initial(capacity), Submits(job)), Sends(0));
    assert s == Initial(capacity).(pending := 1, channel := [job], log := Then(Start, Accepted(job.id)));
    WorkedTwo(s);
    assert Worked(s, 2) == Taken(capacity, job, Drain, 0);
    WorkedTwo(Taken(capacity, job, Drain, 0));
    WorkedMore(s, 2, 2);
  }

  /** The log of a job attempted once, and accepted by the device at once. */
  function Story(job: Job, at: nat): Log {
    Then(Then(Then(Then(Start, Accepted(job.id)), Attempted(job, at, 0)), Answered(at, at, Done, 0)),
         Reported(job.id, Submitted, 0))
  }

  lemma ServesDue(capacity: nat, job: Job)
    requires capacity >= 1
    ensures var t := Worked(Taken(capacity, job, Peek, job.notBefore), 5);
            && t == State(capacity, 0, [], [], [], 1, 1, true, false, false, Check, None, job.notBefore,
                          Story(job, job.notBefore))
  {
    var s := Taken(capacity, job, Peek, job.notBefore);
    WorkedTwo(s);
    var t := Worked(s, 2);
    assert t.worker.Trying? && t.heap == [];
    WorkedTwo(t);
    WorkedMore(s, 2, 2);
    var u := Worked(s, 4);
    assert u.worker == Reporting(job, Submitted, 0);
    WorkedTwo(u);
    WorkedMore(s, 4, 1);
  }

  lemma LooksAgain(capacity: nat, job: Job)
    ensures Worked(Taken(capacity, job, Waiting(job.notBefore), job.notBefore), 3)
            == Taken(capacity, job, Peek, job.notBefore)
  {
    var s := Taken(capacity, job, Waiting(job.notBefore), job.notBefore);
    WorkedTwo(s);
    assert Worked(s, 2) == Taken(capacity, job, Drain, job.notBefore);
    WorkedTwo(Taken(capacity, job, Drain, job.notBefore));
    WorkedMore(s, 2, 1);
  }

  /** From its start: a job that is submitted, of which the device accepts the commit, is attempted
      at its time, once, and reported as submitted, and its place is free again. */
  lemma OneJobServed(capacity: nat, job: Job, waiting: State)
    requires capacity >= 1 && job.notBefore > 0
    requires waiting == Worked(Do(Do(Initial(capacity), Submits(job)), Sends(0)), 4)
    ensures var t := Worked(Do(waiting, Passes(job.notBefore)), 8);
            t.log == Story(job, job.notBefore) && t.pending == 0 && t.worker == Check
  {
    WaitsForJob(capacity, job);
    LooksAgain(capacity, job);
    ServesDue(capacity, job);
    WorkedMore(Taken(capacity, job, Waiting(job.notBefore), job.notBefore), 3, 5);
  }

  // ---------------------------------------------------------------- what the other steps do

  lemma OutsideSteps(s: State, time: nat)
    ensures s.sending == [] ==> Do(s, Cancels) == s.(cancelled := true)
    ensures s.cancelled ==> Do(s, Closes) == s.(closed := true)
    ensures Do(s, Passes(time)) == s.(now := s.now + time)
    ensures s.left.None? ==> Do(s, Crashes) == s.(left := Some(Crashed))
  {
  }

  // ---------------------------------------------------------------- a shutdown stops the worker

  /** Shut down, and the worker not gone yet. */
  ghost predicate Ending(s: State) {
    s.cancelled && s.closed && s.left.None?
  }

  /** How many steps the worker is from leaving. */
  function Remaining(s: State): nat {
    match s.worker
    case Check => 1
    case Blocked => 2
    case Waiting(_) => 2
    case Parked => 2
    case Reporting(_, _, _) => 2
    case Settling(_, _, _) => 3
    case Trying(_, _) => 4
    case Pop => 5
    case Peek => 6
    case Drain => 7 + |s.channel|
  }

  lemma LookEnds(s: State, late: bool)
    requires Good(s, 0) && Ending(s) && Free(s.worker) && !s.worker.Pop?
    ensures var t := Look(s, late); t.left.Some? || Remaining(t) < Remaining(s)
  {
  }

  /** Every step of the worker brings it closer, and there is one, until it has left. */
  lemma WorkEnds(s: State, choice: nat, outcome: Outcome, late: bool)
    requires Good(s, 0) && Ending(s) && (s.worker.Pop? ==> Least(s.heap, choice))
    ensures var t := Work(s, choice, outcome, late); t.left.Some? || (Ending(t) && Remaining(t) < Remaining(s))
  {
    WorkStaysActive(s, choice, outcome, late);
    match s.worker
    case Pop =>
    case Trying(_, _) => TriedKind(s, outcome);
    case Settling(_, _, _) =>
    case Reporting(_, _, _) =>
    case _ =>
      LookKind(s, late);
      LookEnds(s, late);
  }

  /** The worker takes the earliest job when it takes one. */
  function Going(s: State, outcome: Outcome, late: bool): Step {
    Works(if s.heap == [] then 0 else Earliest(s.heap), outcome, late)
  }

  ghost function Gone(s: State, outcomes: seq<Outcome>): State {
    if outcomes == [] then s
    else var t := Gone(s, outcomes[..|outcomes| - 1]); Do(t, Going(t, outcomes[|outcomes| - 1], false))
  }

  lemma {:induction false} GoesOn(s: State, outcomes: seq<Outcome>)
    requires Good(s, 0) && Ending(s)
    ensures var t := Gone(s, outcomes);
            Good(t, 0) && (t.left.Some? || (Ending(t) && Remaining(t) + |outcomes| <= Remaining(s)))
    decreases |outcomes|
  {
    if outcomes != [] {
      var n := |outcomes| - 1;
      GoesOn(s, outcomes[..n]);
      var t := Gone(s, outcomes[..n]);
      var step := Going(t, outcomes[n], false);
      StepGood(t, step, 0);
      if t.left.None? { WorkEnds(t, step.choice, outcomes[n], false); }
    }
  }

  /** From any state of any run after a shutdown, whatever the device answers, the worker has left
      after at most as many steps as there are jobs in the channel, and seven more. */
  lemma ShutdownStops(capacity: nat, states: seq<State>, steps: seq<Step>, n: nat, outcomes: seq<Outcome>)
    requires IsRun(capacity, states, steps) && n < |states| && states[n].cancelled && states[n].closed
    requires |outcomes| >= 7 + |states[n].channel|
    ensures Gone(states[n], outcomes).left.Some?
  {
    var s := states[n];
    EveryRunGood(capacity, states, steps, n, 0);
    if s.left.None? {
      GoesOn(s, outcomes);
    } else {
      StaysGone(s, outcomes);
    }
  }

  lemma {:induction false} StaysGone(s: State, outcomes: seq<Outcome>)
    requires s.left.Some?
    ensures Gone(s, outcomes) == s
    decreases |outcomes|
  {
    if outcomes != [] { StaysGone(s, outcomes[..|outcomes| - 1]); }
  }

  // ---------------------------------------------------------------- new jobs are seen before the next attempt

  /** On the way from a check to an attempt: `all` jobs have come, and have been scheduled by the time
      the worker looks at the heap. */
  ghost predicate Sweeps(s: State, all: nat) {
    match s.worker
    case Check => s.arrived + |s.channel| >= all && (s.connected || s.channel == [])
    case Drain => s.arrived + |s.channel| >= all
    case Peek => s.arrived >= all
    case Pop => s.arrived >= all
    case _ => true
  }

  lemma LookSweeps(s: State, late: bool, all: nat)
    requires Sweeps(s, all) && Placed(s) && Free(s.worker) && !Look(s, late).worker.Check?
    ensures Sweeps(Look(s, late), all)
  {
  }

  lemma WorkSweeps(s: State, choice: nat, outcome: Outcome, late: bool, all: nat)
    requires Sweeps(s, all) && Placed(s) && !Work(s, choice, outcome, late).worker.Check?
    ensures Sweeps(Work(s, choice, outcome, late), all)
  {
    match s.worker
    case Pop =>
    case Trying(hand, _) => if hand.expiresAt.Some? { TriedKind(s, outcome); }
    case Settling(_, _, _) =>
    case Reporting(_, _, _) =>
    case _ => LookSweeps(s, late, all);
  }

  lemma StepSweeps(s: State, step: Step, all: nat)
    requires Sweeps(s, all) && Placed(s) && !Do(s, step).worker.Check?
    ensures Sweeps(Do(s, step), all)
  {
    match step
    case Works(choice, outcome, late) => if s.left.None? { WorkSweeps(s, choice, outcome, late, all); }
    case _ =>
  }

  lemma NextSweeps(capacity: nat, states: seq<State>, steps: seq<Step>, n: nat, all: nat)
    requires IsRun(capacity, states, steps) && 0 < n < |states| && Good(states[n - 1], 0)
    requires Sweeps(states[n - 1], all) && !states[n].worker.Check?
    ensures Sweeps(states[n], all)
  {
    StepSweeps(states[n - 1], steps[n - 1], all);
  }

  lemma {:induction false} SweptSince(capacity: nat, states: seq<State>, steps: seq<Step>, m: nat, n: nat)
    requires IsRun(capacity, states, steps) && m <= n < |states| && states[m].worker.Check?
    requires forall k: nat | m < k <= n :: !states[k].worker.Check?
    ensures Sweeps(states[n], states[m].arrived + |states[m].channel|)
    decreases n
  {
    EveryRunGood(capacity, states, steps, m, 0);
    if n > m {
      SweptSince(capacity, states, steps, m, n - 1);
      EveryRunGood(capacity, states, steps, n - 1, 0);
      NextSweeps(capacity, states, steps, n, states[m].arrived + |states[m].channel|);
    }
  }

  /** Before the worker takes a job, every job that was in the channel when it last began anew is in
      the heap: an earlier deadline among them goes first. */
  lemma ChannelGoesFirst(capacity: nat, states: seq<State>, steps: seq<Step>, m: nat, n: nat)
    requires IsRun(capacity, states, steps) && m <= n < |states| && states[m].worker.Check? && states[n].worker.Pop?
    requires forall k: nat | m < k <= n :: !states[k].worker.Check?
    ensures states[n].arrived >= states[m].arrived + |states[m].channel|
  {
    SweptSince(capacity, states, steps, m, n);
  }
}
