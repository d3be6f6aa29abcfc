/** The scheduler gets its work done. */
module SchedulerProgress {
  // Short of a shutdown or a crash the worker takes a bounded number of steps for each job, and
  // when there is nothing left for it to do, no job that is due is left: what has not been
  // reported is waiting for its time or, still within its window, for its next attempt.

  import opened Basics
  import opened Wrappers
  import opened Scheduler
  import opened SchedulerSafety

  // ---------------------------------------------------------------- how much is left to do

  /** Attempts a job may still get. */
  function Left(j: Scheduled): nat {
    if j.tries < MOST_TRIES then MOST_TRIES - j.tries else 0
  }

  function HeapLeft(heap: seq<Scheduled>): nat {
    if heap == [] then 0 else Left(heap[0]) + HeapLeft(heap[1..])
  }

  function HandLeft(w: Worker): nat {
    if w.Trying? then Left(w.hand) else 0
  }

  /** Attempts still to come, and one more for each time a job has yet to be passed on. */
  function Ahead(s: State): nat {
    HeapLeft(s.heap) + HandLeft(s.worker) + (MOST_TRIES + 1) * |s.channel| + (MOST_TRIES + 2) * |s.sending|
  }

  /** Nothing to wait for. */
  predicate Due(s: State) {
    s.heap == [] || NextReady(s.heap) <= s.now
  }

  const ROUND := 13

  /** How far the worker is from its next attempt, or from resting. */
  function Distance(s: State): (d: nat)
    ensures d < ROUND
  {
    match s.worker
    case Trying(_, _) => 12
    case Settling(_, _, _) => 11
    case Reporting(_, _, _) => 10
    case Check => if Due(s) then 5 else 9
    case Drain => if Due(s) then 4 else 8
    case Peek => if Due(s) then 3 else 7
    case Waiting(_) => 6
    case Parked => 6
    case Pop => 2
    case Blocked => 1
  }

  function ToDo(s: State): nat {
    ROUND * Ahead(s) + Distance(s)
  }

  lemma {:induction false} LeftPush(heap: seq<Scheduled>, j: Scheduled)
    ensures HeapLeft(heap + [j]) == HeapLeft(heap) + Left(j)
  {
    if heap != [] {
      assert (heap + [j])[1..] == heap[1..] + [j];
      LeftPush(heap[1..], j);
    }
  }

  lemma {:induction false} LeftWithout(heap: seq<Scheduled>, i: nat)
    requires i < |heap|
    ensures HeapLeft(heap) == HeapLeft(Without(heap, i)) + Left(heap[i])
  {
    if i == 0 {
      assert Without(heap, 0) == heap[1..];
    } else {
      LeftWithout(heap[1..], i - 1);
      assert Without(heap, i)[1..] == Without(heap[1..], i - 1);
    }
  }

  // ---------------------------------------------------------------- every step makes progress

  /** Up and running. */
  ghost predicate Active(s: State) {
    s.left.None? && !s.cancelled
  }

  lemma ScheduleProgress(s: State)
    requires s.channel != []
    ensures HeapLeft(Schedule(s).heap) == HeapLeft(s.heap) + MOST_TRIES
  {
    var job := s.channel[0];
    LeftPush(s.heap, Scheduled(job, job.notBefore, None, s.order, s.arrived, 0, 0));
  }

  lemma LookProgress(s: State, late: bool)
    requires Placed(s) && Active(s) && Free(s.worker) && Look(s, late) != s
    ensures ToDo(Look(s, late)) < ToDo(s)
  {
    var t := Look(s, late);
    LookKind(s, late);
    if s.channel != [] { ScheduleProgress(s); }
    if Schedules(s, t) {
      assert Ahead(t) == Ahead(s) - 1;
    } else {
      assert Ahead(t) == Ahead(s);
      MoveProgress(s, late);
    }
  }

  lemma MoveProgress(s: State, late: bool)
    requires Placed(s) && Active(s) && Free(s.worker) && Look(s, late) != s && Moves(s, Look(s, late))
    ensures Distance(Look(s, late)) < Distance(s)
  {
  }

  lemma TakeProgress(s: State, i: nat)
    requires s.worker.Pop? && i < |s.heap| && Timely(s.heap[i])
    ensures ToDo(Take(s, i)) < ToDo(s)
  {
    LeftWithout(s.heap, i);
    assert Left(Take(s, i).worker.hand) == Left(s.heap[i]) - 1;
    assert Ahead(Take(s, i)) == Ahead(s) - 1;
  }

  lemma TriedProgress(s: State, outcome: Outcome)
    requires s.worker.Trying? && s.worker.hand.expiresAt.Some?
    ensures ToDo(Tried(s, outcome)) < ToDo(s)
  {
    TriedKind(s, outcome);
    LeftPush(s.heap, s.worker.hand.(readyAt := s.worker.at + RETRY_INTERVAL));
    assert Ahead(Tried(s, outcome)) <= Ahead(s);
  }

  lemma WorkProgress(s: State, choice: nat, outcome: Outcome, late: bool)
    requires Good(s, 0) && Active(s) && Work(s, choice, outcome, late) != s
    ensures ToDo(Work(s, choice, outcome, late)) < ToDo(s)
  {
    match s.worker
    case Pop => TakeProgress(s, choice);
    case Trying(_, _) => TriedProgress(s, outcome);
    case Settling(_, _, _) => assert Ahead(Settle(s)) == Ahead(s);
    case Reporting(_, _, _) => assert Ahead(Report(s)) == Ahead(s);
    case _ => LookProgress(s, late);
  }

  const PER_JOB := ROUND * (MOST_TRIES + 2)

  lemma SubmitProgress(s: State, job: Job)
    ensures ToDo(Submit(s, job)) == ToDo(s) + if Submit(s, job) != s then PER_JOB else 0
  {
    if !(s.cancelled || s.closed || s.pending >= s.capacity) {
      assert Ahead(Submit(s, job)) == Ahead(s) + MOST_TRIES + 2;
    }
  }

  lemma SendProgress(s: State, k: nat)
    ensures ToDo(Send(s, k)) <= ToDo(s)
  {
    if k < |s.sending| {
      assert |Send(s, k).sending| == |s.sending| - 1;
      assert Ahead(Send(s, k)) <= Ahead(s);
    }
  }

  lemma PassProgress(s: State, time: nat)
    ensures ToDo(s.(now := s.now + time)) <= ToDo(s)
  {
    assert Ahead(s.(now := s.now + time)) == Ahead(s);
  }

  lemma WorkStaysActive(s: State, choice: nat, outcome: Outcome, late: bool)
    requires s.left.None?
    ensures Work(s, choice, outcome, late).cancelled == s.cancelled
  {
    match s.worker
    case Trying(hand, _) => if hand.expiresAt.Some? { TriedKind(s, outcome); }
    case Pop =>
    case Settling(_, _, _) =>
    case Reporting(_, _, _) =>
    case _ => LookKind(s, late);
  }

  lemma WasActive(s: State, step: Step)
    requires Active(Do(s, step))
    ensures Active(s)
  {
    match step
    case Works(choice, outcome, late) => if s.left.None? { WorkStaysActive(s, choice, outcome, late); }
    case _ =>
  }

  lemma StepProgress(s: State, step: Step)
    requires Good(s, 0) && Active(s) && Active(Do(s, step))
    ensures var t := Do(s, step);
            ToDo(t) + One(step.Works? && t != s) <= ToDo(s) + PER_JOB * One(step.Submits? && t != s)
  {
    match step
    case Works(choice, outcome, late) => if Do(s, step) != s { WorkProgress(s, choice, outcome, late); }
    case Submits(job) => SubmitProgress(s, job);
    case Sends(k) => SendProgress(s, k);
    case Passes(time) => PassProgress(s, time);
    case Cancels =>
    case Closes => assert Do(s, step) == s;
    case Crashes =>
  }

  // ---------------------------------------------------------------- over a run

  /** In step `k` the worker does something. */
  predicate WorksAt(states: seq<State>, steps: seq<Step>, k: nat)
    requires k < |steps| < |states|
  {
    steps[k].Works? && states[k + 1] != states[k]
  }

  /** In step `k` a producer gets a place. */
  predicate PlacesAt(states: seq<State>, steps: seq<Step>, k: nat)
    requires k < |steps| < |states|
  {
    steps[k].Submits? && states[k + 1] != states[k]
  }

  /** How many of the first `n` steps the worker does something in. */
  function Efforts(states: seq<State>, steps: seq<Step>, n: nat): nat
    requires n <= |steps| < |states|
  {
    if n == 0 then 0 else Efforts(states, steps, n - 1) + One(WorksAt(states, steps, n - 1))
  }

  /** How many places are taken in them. */
  function Places(states: seq<State>, steps: seq<Step>, n: nat): nat
    requires n <= |steps| < |states|
  {
    if n == 0 then 0 else Places(states, steps, n - 1) + One(PlacesAt(states, steps, n - 1))
  }

  lemma NextProgress(capacity: nat, states: seq<State>, steps: seq<Step>, n: nat)
    requires IsRun(capacity, states, steps) && 0 < n < |states| && Good(states[n - 1], 0) && Active(states[n])
    ensures Active(states[n - 1])
    ensures ToDo(states[n]) + One(WorksAt(states, steps, n - 1))
            <= ToDo(states[n - 1]) + PER_JOB * One(PlacesAt(states, steps, n - 1))
  {
    WasActive(states[n - 1], steps[n - 1]);
    StepProgress(states[n - 1], steps[n - 1]);
  }

  ghost predicate Bounded(states: seq<State>, steps: seq<Step>, n: nat)
    requires n <= |steps| < |states|
  {
    Efforts(states, steps, n) + ToDo(states[n]) <= PER_JOB * Places(states, steps, n) + 5
  }

  lemma NextBounded(capacity: nat, states: seq<State>, steps: seq<Step>, n: nat)
    requires IsRun(capacity, states, steps) && 0 < n < |states| && Good(states[n - 1], 0) && Active(states[n])
    requires Bounded(states, steps, n - 1)
    ensures Bounded(states, steps, n)
  {
    NextProgress(capacity, states, steps, n);
  }

  lemma StartsBounded(capacity: nat, states: seq<State>, steps: seq<Step>)
    requires IsRun(capacity, states, steps)
    ensures Bounded(states, steps, 0)
  {
    assert ToDo(Initial(capacity)) == 5;
  }

  lemma NextActive(capacity: nat, states: seq<State>, steps: seq<Step>, n: nat)
    requires IsRun(capacity, states, steps) && 0 < n < |states| && Good(states[n - 1], 0) && Active(states[n])
    ensures Active(states[n - 1])
  {
    WasActive(states[n - 1], steps[n - 1]);
  }

  lemma {:induction false} EffortsBounded(capacity: nat, states: seq<State>, steps: seq<Step>, n: nat)
    requires IsRun(capacity, states, steps) && n < |states| && Active(states[n])
    ensures Bounded(states, steps, n)
    decreases n
  {
    if n > 0 {
      EveryRunGood(capacity, states, steps, n - 1, 0);
      NextActive(capacity, states, steps, n);
      EffortsBounded(capacity, states, steps, n - 1);
      NextBounded(capacity, states, steps, n);
    } else {
      StartsBounded(capacity, states, steps);
    }
  }

  /** In every run, as long as there is no shutdown or crash, the worker takes at most 13039 steps
      for each job that got a place, and 5 more: it never runs on without getting anywhere. */
  lemma WorkIsBounded(capacity: nat, states: seq<State>, steps: seq<Step>, n: nat)
    requires IsRun(capacity, states, steps) && n < |states| && Active(states[n])
    ensures Efforts(states, steps, n) <= 13039 * Places(states, steps, n) + 5
  {
    EffortsBounded(capacity, states, steps, n);
  }

  // ---------------------------------------------------------------- at rest

  /** There is nothing the worker could do. */
  ghost predicate Resting(s: State) {
    forall choice: nat, outcome: Outcome, late: bool :: Work(s, choice, outcome, late) == s
  }

  lemma PopActs(s: State) returns (i: nat)
    requires s.worker.Pop? && s.heap != []
    ensures Work(s, i, Done, false) != s
  {
    i := Earliest(s.heap);
  }

  /** A resting worker has an empty hand and channel, and nothing in the heap is due. */
  lemma RestMeansIdle(s: State)
    requires Good(s, 0) && Active(s) && Resting(s)
    ensures s.channel == [] && (s.worker.Blocked? || s.worker.Waiting?)
    ensures s.heap != [] ==> s.now < NextReady(s.heap)
  {
    assert Work(s, 0, Done, false) == s;
    if s.worker.Pop? { var i := PopActs(s); }
  }

  /** So when the worker rests, what has been accepted and not reported is in the heap, and each
      job there has its time still to come: the time it asked for if it was never attempted, and
      otherwise its next attempt, within 100.1 ms of its first. */
  lemma RestServesTheDue(capacity: nat, states: seq<State>, steps: seq<Step>, n: nat, x: nat)
    requires IsRun(capacity, states, steps) && n < |states| && Active(states[n]) && Resting(states[n])
    ensures var s := states[n];
            && AcceptedIn(s.log, x) == ReportedIn(s.log, x) + Kept(s.heap, x)
            && forall j | j in s.heap ::
                 if j.tries == 0 then s.now < j.job.notBefore
                 else s.now < j.readyAt < j.first + MAX_WAIT + RETRY_INTERVAL
  {
    EveryRunGood(capacity, states, steps, n, 0);
    EveryRunGood(capacity, states, steps, n, x);
    var s := states[n];
    RestMeansIdle(s);
    assert Sent(s.channel, x) == 0;
    forall j | j in s.heap
      ensures if j.tries == 0 then s.now < j.job.notBefore
              else s.now < j.readyAt < j.first + MAX_WAIT + RETRY_INTERVAL
    {
      var i :| 0 <= i < |s.heap| && s.heap[i] == j;
      NextReadyIsLeast(s.heap, i);
      assert Timely(s.heap[i]);
    }
  }
}
