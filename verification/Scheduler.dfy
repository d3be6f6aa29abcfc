/** The deadline scheduler for ahead-of-time commits. */
module Scheduler {
  // Producers take a place against a quota and send over a bounded channel; one worker keeps
  // a deadline heap, tries the earliest job, and puts a busy one back. Each step is one
  // action on shared state; a run is any sequence of them, so every interleaving is one.

  import opened Basics
  import opened Wrappers

  const MAX_WAIT := 100_000_000        // nanoseconds
  const RETRY_INTERVAL := 100_000
  const ORDER_WRAP := 0x1_0000_0000_0000_0000

  const EPERM := 1
  const ENOENT := 2
  const EINTR := 4
  const EIO := 5
  const EAGAIN := 11
  const EACCES := 13
  const EBUSY := 16
  const ENODEV := 19
  const EINVAL := 22
  const ETIMEDOUT := 110

  datatype Job = Job(id: nat, notBefore: nat)

  /** `serial`, `tries` and `first` are kept for the proofs: which of the jobs that came to the
      worker it is, how often it was attempted and when first. */
  datatype Scheduled = Scheduled(job: Job, readyAt: nat, expiresAt: Option<nat>, order: nat, serial: nat, tries: nat,
                                 first: nat)

  // ---------------------------------------------------------------- order and failures

  datatype Ordering = Less | Equal | Greater

  function Compare(a: nat, b: nat): Ordering {
    if a < b then Less else if a == b then Equal else Greater
  }

  /** Reversed, so that the greatest is the earliest deadline and then the oldest arrival. */
  function ScheduleOrder(a: Scheduled, b: Scheduled): Ordering {
    var byTime := Compare(b.readyAt, a.readyAt);
    if byTime == Equal then Compare(b.order, a.order) else byTime
  }

  /** `a` is due before `b`. */
  predicate Before(a: Scheduled, b: Scheduled) {
    a.readyAt < b.readyAt || (a.readyAt == b.readyAt && a.order < b.order)
  }

  predicate Least(heap: seq<Scheduled>, i: nat) {
    i < |heap| && forall j | 0 <= j < |heap| :: !Before(heap[j], heap[i])
  }

  datatype Outcome = Done | Error(errno: Option<int>)
  datatype Disposition = Retry | Recover | Fail

  predicate Retryable(errno: Option<int>) {
    errno in {Some(EBUSY), Some(EAGAIN), Some(EINTR)}
  }

  predicate Recoverable(errno: Option<int>) {
    errno in {Some(EACCES), Some(EPERM), Some(EINVAL), Some(ENOENT), Some(ENODEV), Some(EIO), Some(ETIMEDOUT)}
  }

  function FailureDisposition(errno: Option<int>, at: nat, expires: nat): Disposition {
    if Retryable(errno) && at < expires then Retry
    else if Retryable(errno) || Recoverable(errno) then Recover
    else Fail
  }

  /** When to submit for a presentation target: `lead` ahead of it, but not before now. */
  function NotBefore(target: nat, now: nat, lead: nat): (t: nat)
    ensures t >= now && t >= target - lead && (t == now || t == target - lead)
  {
    var early := if target >= lead then target - lead else now;
    if early >= now then early else now
  }

  // ---------------------------------------------------------------- state

  datatype Event = Submitted | Stalled | Failed

  /** How the worker came to its end. */
  datatype Leaving = Stopped | Drained | Crashed

  /** Where the worker is. */
  datatype Worker =
    | Check
    | Drain
    | Peek
    | Blocked
    | Waiting(until: nat)
    | Parked
    | Pop
    | Trying(hand: Scheduled, at: nat)
    | Settling(job: Job, event: Event, serial: nat)
    | Reporting(job: Job, event: Event, serial: nat)

  datatype Effect =
    | Accepted(id: nat)
    | Attempted(job: Job, at: nat, serial: nat)
    | Answered(first: nat, at: nat, outcome: Outcome, serial: nat)
    | Reported(id: nat, event: Event, serial: nat)

  /** Everything others can see, the latest last. */
  datatype Log = Start | Then(before: Log, last: Effect)

  datatype State = State(capacity: nat, pending: nat, sending: seq<Job>, channel: seq<Job>, heap: seq<Scheduled>,
                         order: nat, arrived: nat, connected: bool, cancelled: bool, closed: bool,
                         worker: Worker, left: Option<Leaving>, now: nat, log: Log)

  function Initial(capacity: nat): State {
    State(capacity, 0, [], [], [], 0, 0, true, false, false, Check, None, 0, Start)
  }

  function Logged(s: State, e: Effect): State {
    s.(log := Then(s.log, e))
  }

  // ---------------------------------------------------------------- producers and shutdown

  /** Takes a place, if the quota has one. Shutting down excludes submitting. */
  function Submit(s: State, job: Job): State {
    if s.cancelled || s.closed || s.pending >= s.capacity then s
    else s.(pending := s.pending + 1, sending := s.sending + [job])
  }

  predicate Full(s: State) {
    |s.channel| >= s.capacity
  }

  function Deliver(s: State, job: Job): State {
    Logged(s.(channel := s.channel + [job]), Accepted(job.id))
  }

  /** Gives the place back if the worker is gone or the channel full. */
  function Send(s: State, k: nat): State {
    if k >= |s.sending| then s
    else
      var t := s.(sending := Without(s.sending, k));
      if s.left.Some? || Full(s) then (if s.pending > 0 then t.(pending := s.pending - 1) else t)
      else Deliver(t, s.sending[k])
  }

  // ---------------------------------------------------------------- worker

  function Schedule(s: State): State
    requires s.channel != []
  {
    var job := s.channel[0];
    s.(channel := s.channel[1..], heap := s.heap + [Scheduled(job, job.notBefore, None, s.order, s.arrived, 0, 0)],
       order := (s.order + 1) % ORDER_WRAP, arrived := s.arrived + 1)
  }

  /** The earliest deadline in the heap. */
  function NextReady(heap: seq<Scheduled>): nat
    requires heap != []
  {
    if |heap| == 1 then heap[0].readyAt
    else
      var t := NextReady(heap[1..]);
      if heap[0].readyAt <= t then heap[0].readyAt else t
  }

  function AtPeek(s: State): State {
    if s.heap == [] then (if s.connected then s.(worker := Blocked) else s.(left := Some(Drained)))
    else if s.now >= NextReady(s.heap) then s.(worker := Pop)
    else s.(worker := if s.connected then Waiting(NextReady(s.heap)) else Parked)
  }

  /** Takes job `i` of the heap for an attempt now; the first one opens its retry window. */
  function Take(s: State, i: nat): State
    requires i < |s.heap|
  {
    var j := s.heap[i];
    var hand := if j.expiresAt.Some? then j.(tries := j.tries + 1)
                else j.(expiresAt := Some(s.now + MAX_WAIT), tries := j.tries + 1, first := s.now);
    Logged(s.(heap := Without(s.heap, i), worker := Trying(hand, s.now)), Attempted(j.job, s.now, j.serial))
  }

  /** Puts a busy job back, to be tried again after the interval. */
  function Requeue(s: State): State
    requires s.worker.Trying?
  {
    var (hand, at) := (s.worker.hand, s.worker.at);
    s.(worker := Check, heap := s.heap + [hand.(readyAt := at + RETRY_INTERVAL)])
  }

  /** The device has answered the attempt. */
  function Told(s: State, outcome: Outcome): State
    requires s.worker.Trying?
  {
    Logged(s, Answered(s.worker.hand.first, s.worker.at, outcome, s.worker.hand.serial))
  }

  function Concluded(s: State, event: Event): State
    requires s.worker.Trying?
  {
    s.(worker := Settling(s.worker.hand.job, event, s.worker.hand.serial))
  }

  function Tried(s: State, outcome: Outcome): State
    requires s.worker.Trying? && s.worker.hand.expiresAt.Some?
  {
    var t := Told(s, outcome);
    match outcome
    case Done => Concluded(t, Submitted)
    case Error(errno) =>
      match FailureDisposition(errno, s.worker.at, s.worker.hand.expiresAt.value)
      case Retry => Requeue(t)
      case Recover => Concluded(t, Stalled)
      case Fail => Concluded(t, Failed)
  }

  /** Gives the job's place back, and then reports what became of it. */
  function Settle(s: State): State
    requires s.worker.Settling?
  {
    var w := s.worker;
    if s.pending > 0 then s.(pending := s.pending - 1, worker := Reporting(w.job, w.event, w.serial)) else s
  }

  function Report(s: State): State
    requires s.worker.Reporting?
  {
    Logged(s.(worker := Check), Reported(s.worker.job.id, s.worker.event, s.worker.serial))
  }

  /** The worker's next action while it has nothing in hand and nothing to take. `late` lets
      a wait that is over time out although a job has just come. */
  function Look(s: State, late: bool): State {
    match s.worker
    case Check =>
      if s.cancelled then s.(left := Some(Stopped)) else s.(worker := if s.connected then Drain else Peek)
    case Drain => if s.channel != [] then Schedule(s) else s.(connected := !s.closed, worker := Peek)
    case Peek => AtPeek(s)
    case Blocked =>
      if s.channel != [] then Schedule(s).(worker := Check)
      else if s.closed then s.(left := Some(Drained)) else s
    case Waiting(until) =>
      if s.channel != [] && !(late && s.now >= until) then Schedule(s).(worker := Check)
      else if s.channel == [] && s.closed then s.(connected := false, worker := Check)
      else if s.now >= until then s.(worker := Check) else s
    case Parked => s.(worker := Check)
    case _ => s
  }

  /** The worker's next action. `choice` is the heap's choice among equally due jobs and
      `outcome` the answer of the device. */
  function Work(s: State, choice: nat, outcome: Outcome, late: bool): State {
    match s.worker
    case Pop => if Least(s.heap, choice) then Take(s, choice) else s
    case Trying(hand, _) => if hand.expiresAt.Some? then Tried(s, outcome) else s
    case Settling(_, _, _) => Settle(s)
    case Reporting(_, _, _) => Report(s)
    case _ => Look(s, late)
  }

  // ---------------------------------------------------------------- runs

  datatype Step =
    | Submits(job: Job)
    | Sends(k: nat)
    | Works(choice: nat, outcome: Outcome, late: bool)
    | Cancels
    | Closes
    | Passes(time: nat)
    | Crashes

  function Do(s: State, step: Step): State {
    match step
    case Submits(job) => Submit(s, job)
    case Sends(k) => Send(s, k)
    case Works(choice, outcome, late) => if s.left.None? then Work(s, choice, outcome, late) else s
    case Cancels => if s.sending == [] then s.(cancelled := true) else s
    case Closes => if s.cancelled then s.(closed := true) else s
    case Passes(time) => s.(now := s.now + time)
    case Crashes => if s.left.None? then s.(left := Some(Crashed)) else s
  }

  /** `states` are the states of a run that takes `steps`. */
  ghost predicate IsRun(capacity: nat, states: seq<State>, steps: seq<Step>) {
    && |states| == |steps| + 1 && states[0] == Initial(capacity)
    && forall k {:trigger steps[k]} | 0 <= k < |steps| :: states[k + 1] == Do(states[k], steps[k])
  }
}
