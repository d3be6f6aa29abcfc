/** What every run of the scheduler keeps: the quota is exactly the jobs under way, no job is
    lost or reported twice, no attempt is early, and retries are bounded. */
module SchedulerSafety {
  import opened Basics
  import opened Wrappers
  import opened Scheduler

  // ---------------------------------------------------------------- where a job can be

  /** Jobs the worker holds and has not settled. */
  function Held(w: Worker): nat {
    match w
    case Trying(_, _) => 1
    case Settling(_, _, _) => 1
    case _ => 0
  }

  /** Whether the worker holds job `x`, or is about to report it. */
  function HeldOf(w: Worker, x: nat): nat {
    match w
    case Trying(hand, _) => One(hand.job.id == x)
    case Settling(job, _, _) => One(job.id == x)
    case Reporting(job, _, _) => One(job.id == x)
    case _ => 0
  }

  function Sent(jobs: seq<Job>, x: nat): nat {
    if jobs == [] then 0 else One(jobs[0].id == x) + Sent(jobs[1..], x)
  }

  function Kept(heap: seq<Scheduled>, x: nat): nat {
    if heap == [] then 0 else One(heap[0].job.id == x) + Kept(heap[1..], x)
  }

  /** Attempts made on job `x` by what is in the heap. */
  function HeapTries(heap: seq<Scheduled>, x: nat): nat {
    if heap == [] then 0 else (if heap[0].job.id == x then heap[0].tries else 0) + HeapTries(heap[1..], x)
  }

  function HandTries(w: Worker, x: nat): nat {
    match w
    case Trying(hand, _) => if hand.job.id == x then hand.tries else 0
    case _ => 0
  }

  function AcceptedIn(log: Log, x: nat): nat {
    match log case Start => 0 case Then(before, e) => AcceptedIn(before, x) + One(e == Accepted(x))
  }

  function ReportedIn(log: Log, x: nat): nat {
    match log case Start => 0 case Then(before, e) => ReportedIn(before, x) + One(e.Reported? && e.id == x)
  }

  function AttemptsIn(log: Log, x: nat): nat {
    match log case Start => 0 case Then(before, e) => AttemptsIn(before, x) + One(e.Attempted? && e.job.id == x)
  }

  lemma {:induction false} SentPush(jobs: seq<Job>, j: Job, x: nat)
    ensures Sent(jobs + [j], x) == Sent(jobs, x) + One(j.id == x)
  {
    if jobs != [] {
      assert (jobs + [j])[1..] == jobs[1..] + [j];
      SentPush(jobs[1..], j, x);
    }
  }

  lemma {:induction false} KeptPush(heap: seq<Scheduled>, j: Scheduled, x: nat)
    ensures Kept(heap + [j], x) == Kept(heap, x) + One(j.job.id == x)
    ensures HeapTries(heap + [j], x) == HeapTries(heap, x) + if j.job.id == x then j.tries else 0
  {
    if heap != [] {
      assert (heap + [j])[1..] == heap[1..] + [j];
      KeptPush(heap[1..], j, x);
    }
  }

  lemma {:induction false} KeptWithout(heap: seq<Scheduled>, i: nat, x: nat)
    requires i < |heap|
    ensures Kept(heap, x) == Kept(Without(heap, i), x) + One(heap[i].job.id == x)
    ensures HeapTries(heap, x) == HeapTries(Without(heap, i), x) + if heap[i].job.id == x then heap[i].tries else 0
  {
    if i == 0 {
      assert Without(heap, 0) == heap[1..];
    } else {
      KeptWithout(heap[1..], i - 1, x);
      assert Without(heap, i)[1..] == Without(heap[1..], i - 1);
    }
  }

  // ---------------------------------------------------------------- what every state keeps

  /** The counter is the jobs being sent, in the channel, in the heap and in hand. */
  ghost predicate Quota(s: State) {
    && s.pending == |s.sending| + |s.channel| + |s.heap| + Held(s.worker)
    && s.pending <= s.capacity
  }

  /** Where an accepted job can be. */
  function UnderWay(s: State, x: nat): nat {
    Sent(s.channel, x) + Kept(s.heap, x) + HeldOf(s.worker, x)
  }

  ghost predicate Books(s: State, x: nat) {
    AcceptedIn(s.log, x) == ReportedIn(s.log, x) + UnderWay(s, x)
  }

  predicate Idle(w: Worker) {
    w.Blocked? || w.Peek?
  }

  /** What the worker's position says about the rest of the state. */
  ghost predicate Placed(s: State) {
    && (s.closed ==> s.cancelled)
    && (s.cancelled ==> s.sending == [])
    && (!s.connected ==> s.closed && s.channel == [])
    && (s.left == Some(Stopped) ==> s.cancelled)
    && (s.left == Some(Drained) ==> s.cancelled && s.channel == [] && s.heap == [] && Idle(s.worker))
    && match s.worker
       case Blocked => s.heap == []
       case Waiting(until) => s.heap != [] && until == NextReady(s.heap)
       case Parked => s.heap != [] && !s.connected
       case Pop => s.heap != [] && NextReady(s.heap) <= s.now
       case _ => true
  }

  const MOST_TRIES := 1001

  ghost predicate Timely(j: Scheduled) {
    && j.readyAt >= j.job.notBefore
    && if j.tries == 0 then j.expiresAt.None? && j.readyAt == j.job.notBefore
       else && j.expiresAt == Some(j.first + MAX_WAIT)
            && j.first + j.tries * RETRY_INTERVAL <= j.readyAt < j.first + MAX_WAIT + RETRY_INTERVAL
            && (j.tries - 1) * RETRY_INTERVAL < MAX_WAIT
  }

  /** A job being tried at `at`. */
  ghost predicate OnTime(j: Scheduled, at: nat) {
    && at >= j.job.notBefore
    && 1 <= j.tries <= MOST_TRIES
    && j.expiresAt == Some(j.first + MAX_WAIT)
    && at >= j.first + (j.tries - 1) * RETRY_INTERVAL
  }

  ghost predicate HandTimely(w: Worker, now: nat) {
    match w
    case Trying(hand, at) => OnTime(hand, at) && at <= now
    case _ => true
  }

  ghost predicate AllTimely(s: State) {
    && (forall i | 0 <= i < |s.heap| :: Timely(s.heap[i]))
    && HandTimely(s.worker, s.now)
    && NeverEarly(s.log)
  }

  /** No attempt in the log is before its job's time. */
  ghost predicate NeverEarly(log: Log) {
    match log
    case Start => true
    case Then(before, e) => NeverEarly(before) && (e.Attempted? ==> e.at >= e.job.notBefore)
  }

  /** Jobs `x` that had their last attempt. */
  function OverOf(w: Worker, x: nat): nat {
    match w
    case Settling(job, _, _) => One(job.id == x)
    case Reporting(job, _, _) => One(job.id == x)
    case _ => 0
  }

  ghost predicate TriesCounted(s: State, x: nat) {
    AttemptsIn(s.log, x) <= HeapTries(s.heap, x) + HandTries(s.worker, x)
                            + MOST_TRIES * (ReportedIn(s.log, x) + OverOf(s.worker, x))
  }

  /** Everything together, as far as job `x` is concerned. */
  ghost predicate Good(s: State, x: nat) {
    Quota(s) && Placed(s) && AllTimely(s) && Books(s, x) && TriesCounted(s, x)
  }

  // ---------------------------------------------------------------- kinds of action

  /** The worker has no job in hand. */
  predicate Free(w: Worker) {
    !w.Trying? && !w.Settling? && !w.Reporting?
  }

  /** Only the worker's position changes. */
  ghost predicate Moves(s: State, t: State) {
    Free(t.worker) && t == s.(worker := t.worker, connected := t.connected, left := t.left)
  }

  /** One job goes from the channel to the heap. */
  ghost predicate Schedules(s: State, t: State) {
    Free(t.worker) && s.channel != [] && t == Schedule(s).(worker := t.worker)
  }

  /** The job in hand has had its last attempt. */
  ghost predicate Concludes(s: State, t: State) {
    s.worker.Trying? && t.worker.Settling? && t == Concluded(s, t.worker.event)
  }

  lemma TriedKind(s: State, outcome: Outcome)
    requires s.worker.Trying? && s.worker.hand.expiresAt.Some?
    ensures var (t, u) := (Tried(s, outcome), Told(s, outcome));
            (t == Requeue(u) && s.worker.at < s.worker.hand.expiresAt.value) || Concludes(u, t)
  {
  }

  lemma LookKind(s: State, late: bool)
    requires Free(s.worker)
    ensures Moves(s, Look(s, late)) || Schedules(s, Look(s, late))
  {
  }

  // ---------------------------------------------------------------- each action keeps it

  lemma LookKeepsPlaced(s: State, late: bool)
    requires Placed(s) && s.left.None?
    ensures Placed(Look(s, late))
  {
  }

  lemma MoveGood(s: State, t: State, x: nat)
    requires Good(s, x) && Free(s.worker) && Moves(s, t) && Placed(t)
    ensures Good(t, x)
  {
  }

  lemma ScheduleGood(s: State, t: State, x: nat)
    requires Good(s, x) && Free(s.worker) && Schedules(s, t) && Placed(t)
    ensures Good(t, x)
  {
    var job := s.channel[0];
    KeptPush(s.heap, Scheduled(job, job.notBefore, None, s.order, s.arrived, 0, 0), x);
  }

  lemma LookGood(s: State, late: bool, x: nat)
    requires Good(s, x) && s.left.None? && Free(s.worker)
    ensures Good(Look(s, late), x)
  {
    var t := Look(s, late);
    LookKind(s, late);
    LookKeepsPlaced(s, late);
    if Moves(s, t) { MoveGood(s, t, x); } else { ScheduleGood(s, t, x); }
  }

  /** A due job taken from the heap is on time; at most 1000 attempts went before. */
  lemma TakenOnTime(j: Scheduled, now: nat)
    requires Timely(j) && j.readyAt <= now
    ensures var hand := if j.expiresAt.Some? then j.(tries := j.tries + 1)
                        else j.(expiresAt := Some(now + MAX_WAIT), tries := j.tries + 1, first := now);
            OnTime(hand, now)
  {
  }

  /** A busy job put back within its window waits out the interval. */
  lemma RetryTimely(hand: Scheduled, at: nat)
    requires OnTime(hand, at) && at < hand.expiresAt.value
    ensures Timely(hand.(readyAt := at + RETRY_INTERVAL))
  {
  }

  lemma {:induction false} NextReadyIsLeast(heap: seq<Scheduled>, i: nat)
    requires i < |heap|
    ensures NextReady(heap) <= heap[i].readyAt
  {
    if |heap| > 1 && i > 0 { NextReadyIsLeast(heap[1..], i - 1); }
  }

  lemma {:induction false} NextReadyIsSome(heap: seq<Scheduled>) returns (i: nat)
    requires heap != []
    ensures i < |heap| && heap[i].readyAt == NextReady(heap)
  {
    if |heap| == 1 || heap[0].readyAt <= NextReady(heap[1..]) {
      i := 0;
    } else {
      var j := NextReadyIsSome(heap[1..]);
      i := j + 1;
    }
  }

  lemma LeastIsDue(heap: seq<Scheduled>, i: nat)
    requires Least(heap, i)
    ensures heap[i].readyAt == NextReady(heap)
  {
    NextReadyIsLeast(heap, i);
    var j := NextReadyIsSome(heap);
    assert !Before(heap[j], heap[i]);
  }

  lemma TakeTimely(s: State, i: nat)
    requires Placed(s) && AllTimely(s) && s.worker.Pop? && Least(s.heap, i)
    ensures AllTimely(Take(s, i))
  {
    LeastIsDue(s.heap, i);
    TakenOnTime(s.heap[i], s.now);
  }

  lemma TakeCounted(s: State, i: nat, x: nat)
    requires Quota(s) && Books(s, x) && TriesCounted(s, x) && s.worker.Pop? && i < |s.heap|
    ensures Quota(Take(s, i)) && Books(Take(s, i), x) && TriesCounted(Take(s, i), x)
  {
    KeptWithout(s.heap, i, x);
  }

  lemma TakeGood(s: State, i: nat, x: nat)
    requires Good(s, x) && s.left.None? && s.worker.Pop? && Least(s.heap, i)
    ensures Good(Take(s, i), x)
  {
    TakeTimely(s, i);
    TakeCounted(s, i, x);
  }

  lemma RequeueGood(s: State, x: nat)
    requires Good(s, x) && s.worker.Trying? && s.worker.at < s.worker.hand.expiresAt.value
    ensures Good(Requeue(s), x)
  {
    RetryTimely(s.worker.hand, s.worker.at);
    KeptPush(s.heap, s.worker.hand.(readyAt := s.worker.at + RETRY_INTERVAL), x);
  }

  lemma ToldGood(s: State, outcome: Outcome, x: nat)
    requires Good(s, x) && s.worker.Trying?
    ensures Good(Told(s, outcome), x)
  {
  }

  lemma ConcludeGood(s: State, t: State, x: nat)
    requires Good(s, x) && s.left.None? && Concludes(s, t)
    ensures Good(t, x)
  {
  }

  lemma SettleGood(s: State, x: nat)
    requires Good(s, x) && s.left.None? && s.worker.Settling?
    ensures Good(Settle(s), x)
  {
  }

  lemma ReportGood(s: State, x: nat)
    requires Good(s, x) && s.left.None? && s.worker.Reporting?
    ensures Good(Report(s), x)
  {
  }

  lemma WorkGood(s: State, choice: nat, outcome: Outcome, late: bool, x: nat)
    requires Good(s, x) && s.left.None?
    ensures Good(Work(s, choice, outcome, late), x)
  {
    match s.worker
    case Pop => if Least(s.heap, choice) { TakeGood(s, choice, x); }
    case Trying(_, _) =>
      var u := Told(s, outcome);
      TriedKind(s, outcome);
      ToldGood(s, outcome, x);
      if Concludes(u, Tried(s, outcome)) { ConcludeGood(u, Tried(s, outcome), x); } else { RequeueGood(u, x); }
    case Settling(_, _, _) => SettleGood(s, x);
    case Reporting(_, _, _) => ReportGood(s, x);
    case _ => LookGood(s, late, x);
  }

  lemma DeliverGood(s: State, k: nat, x: nat)
    requires Good(s, x) && k < |s.sending|
    ensures Good(Deliver(s.(sending := Without(s.sending, k)), s.sending[k]), x)
  {
    SentPush(s.channel, s.sending[k], x);
  }

  lemma SendGood(s: State, k: nat, x: nat)
    requires Good(s, x)
    ensures Good(Send(s, k), x)
  {
    if k < |s.sending| && s.left.None? && !Full(s) { DeliverGood(s, k, x); }
  }

  lemma StepGood(s: State, step: Step, x: nat)
    requires Good(s, x)
    ensures Good(Do(s, step), x) && Do(s, step).capacity == s.capacity
  {
    match step
    case Works(choice, outcome, late) =>
      if s.left.None? { WorkGood(s, choice, outcome, late, x); }
      WorkCapacity(s, choice, outcome, late);
    case Sends(k) => SendGood(s, k, x);
    case _ =>
  }

  lemma WorkCapacity(s: State, choice: nat, outcome: Outcome, late: bool)
    ensures Work(s, choice, outcome, late).capacity == s.capacity
  {
  }

  lemma NextGood(capacity: nat, states: seq<State>, steps: seq<Step>, n: nat, x: nat)
    requires IsRun(capacity, states, steps) && 0 < n < |states| && Good(states[n - 1], x)
    ensures Good(states[n], x) && states[n].capacity == states[n - 1].capacity
  {
    StepGood(states[n - 1], steps[n - 1], x);
  }

  lemma {:induction false} EveryRunGood(capacity: nat, states: seq<State>, steps: seq<Step>, n: nat, x: nat)
    requires IsRun(capacity, states, steps) && n < |states|
    ensures Good(states[n], x) && states[n].capacity == capacity
    decreases n
  {
    if n > 0 {
      EveryRunGood(capacity, states, steps, n - 1, x);
      NextGood(capacity, states, steps, n, x);
    }
  }

  // ---------------------------------------------------------------- the quota

  lemma RoomForThePlaced(s: State)
    requires Quota(s)
    ensures s.sending != [] ==> !Full(s) && s.pending > 0
    ensures s.worker.Settling? ==> s.pending > 0
  {
  }

  /** In every state of every run the counter is exactly what is under way, within the
      capacity. So a job that has a place always finds room in the channel, and the counter
      is positive whenever it is lowered. */
  lemma QuotaIsExact(capacity: nat, states: seq<State>, steps: seq<Step>, n: nat)
    requires IsRun(capacity, states, steps) && n < |states|
    ensures var s := states[n];
            && s.pending == |s.sending| + |s.channel| + |s.heap| + Held(s.worker) <= capacity
            && (s.sending != [] ==> !Full(s) && s.pending > 0)
            && (s.worker.Settling? ==> s.pending > 0)
  {
    EveryRunGood(capacity, states, steps, n, 0);
    RoomForThePlaced(states[n]);
  }

  /** A submission gets a place if and only if there is no shutdown and fewer jobs are under way than
      the capacity; and the place is one in the channel, while there is a worker, or given back. */
  lemma SubmissionDecides(capacity: nat, states: seq<State>, steps: seq<Step>, n: nat, job: Job)
    requires IsRun(capacity, states, steps) && n < |states|
    ensures var (s, t) := (states[n], Do(states[n], Submits(job)));
            if !s.cancelled && |s.sending| + |s.channel| + |s.heap| + Held(s.worker) < capacity then
              && t == s.(pending := s.pending + 1, sending := s.sending + [job])
              && Do(t, Sends(|s.sending|)) ==
                 if s.left.Some? then s
                 else s.(pending := s.pending + 1, channel := s.channel + [job], log := Then(s.log, Accepted(job.id)))
            else t == s
  {
    EveryRunGood(capacity, states, steps, n, 0);
    var (s, t) := (states[n], Do(states[n], Submits(job)));
    if t != s { assert Without(t.sending, |s.sending|) == s.sending; }
  }

  // ---------------------------------------------------------------- no job is lost

  /** In every run each accepted job is reported, or waits in the channel, in the heap or in
      the worker's hand, exactly as often as it was accepted: none is lost, and one accepted
      once is reported at most once. */
  lemma NoJobLost(capacity: nat, states: seq<State>, steps: seq<Step>, n: nat, x: nat)
    requires IsRun(capacity, states, steps) && n < |states|
    ensures var s := states[n]; AcceptedIn(s.log, x) == ReportedIn(s.log, x) + UnderWay(s, x)
  {
    EveryRunGood(capacity, states, steps, n, x);
  }

  /** Exactly one event unless shutdown cancels: a worker that leaves on its own, without
      having seen the cancellation, has reported every accepted job exactly once each; and
      one that waits for a job with nothing in the channel has too. */
  lemma AllReportedAtRest(capacity: nat, states: seq<State>, steps: seq<Step>, n: nat, x: nat)
    requires IsRun(capacity, states, steps) && n < |states|
    requires var s := states[n];
             s.left == Some(Drained) || (s.worker.Blocked? && s.channel == [])
    ensures var s := states[n]; ReportedIn(s.log, x) == AcceptedIn(s.log, x)
  {
    EveryRunGood(capacity, states, steps, n, x);
  }

  /** The worker leaves with jobs not reported only after a shutdown or a crash. */
  lemma LostOnlyByShutdown(capacity: nat, states: seq<State>, steps: seq<Step>, n: nat, x: nat)
    requires IsRun(capacity, states, steps) && n < |states|
    requires var s := states[n]; s.left.Some? && ReportedIn(s.log, x) != AcceptedIn(s.log, x)
    ensures var s := states[n]; s.left == Some(Crashed) || (s.left == Some(Stopped) && s.cancelled)
  {
    EveryRunGood(capacity, states, steps, n, x);
    match states[n].left.value
    case Drained => AllReportedAtRest(capacity, states, steps, n, x);
    case Stopped =>
    case Crashed =>
  }

  /** The worker never sleeps past the earliest deadline. */
  lemma WakesForTheEarliest(capacity: nat, states: seq<State>, steps: seq<Step>, n: nat, j: Scheduled)
    requires IsRun(capacity, states, steps) && n < |states|
    requires var s := states[n]; s.worker.Waiting? && j in s.heap
    ensures states[n].worker.until <= j.readyAt
  {
    var heap := states[n].heap;
    var i :| 0 <= i < |heap| && heap[i] == j;
    NextReadyIsLeast(heap, i);
    EveryRunGood(capacity, states, steps, n, 0);
  }

  // ---------------------------------------------------------------- deadlines and retries

  /** Over every run no attempt comes before the time its job asked for. */
  lemma NoAttemptIsEarly(capacity: nat, states: seq<State>, steps: seq<Step>, n: nat)
    requires IsRun(capacity, states, steps) && n < |states|
    ensures NeverEarly(states[n].log)
  {
    EveryRunGood(capacity, states, steps, n, 0);
  }

  lemma {:induction false} HeapTriesBounded(heap: seq<Scheduled>, x: nat)
    requires forall i | 0 <= i < |heap| :: Timely(heap[i])
    ensures HeapTries(heap, x) <= MOST_TRIES * Kept(heap, x)
  {
    if heap != [] {
      assert Timely(heap[0]);
      HeapTriesBounded(heap[1..], x);
    }
  }

  /** Any job accepted once is attempted at most 1001 times, whatever the device answers. */
  lemma RetriesAreBounded(capacity: nat, states: seq<State>, steps: seq<Step>, n: nat, x: nat)
    requires IsRun(capacity, states, steps) && n < |states|
    ensures var log := states[n].log; AttemptsIn(log, x) <= MOST_TRIES * AcceptedIn(log, x)
  {
    var s := states[n];
    EveryRunGood(capacity, states, steps, n, x);
    HeapTriesBounded(s.heap, x);
    assert HandTries(s.worker, x) + MOST_TRIES * OverOf(s.worker, x) <= MOST_TRIES * HeldOf(s.worker, x);
  }

  // ---------------------------------------------------------------- order of service

  /** The heap's order is the order of service: the greatest is the one due first. */
  lemma OrderMeansBefore(a: Scheduled, b: Scheduled)
    ensures ScheduleOrder(a, b) == Greater <==> Before(a, b)
    ensures ScheduleOrder(a, b) == Less <==> Before(b, a)
    ensures ScheduleOrder(a, b) == Equal <==> a.readyAt == b.readyAt && a.order == b.order
  {
  }

  /** There is always a job to pop: the greatest in the heap's order. */
  function Earliest(heap: seq<Scheduled>): (i: nat)
    requires heap != []
    ensures Least(heap, i)
  {
    if |heap| == 1 then 0 else
    var j := Earliest(heap[1..]) + 1;
    assert forall k | 1 <= k < |heap| :: heap[k] == heap[1..][k - 1];
    if ScheduleOrder(heap[j], heap[0]) == Greater then j else 0
  }

  lemma TakenInOrder(s: State, i: nat, b: Scheduled)
    requires b in s.heap && Least(s.heap, i)
    ensures !Before(b, s.heap[i]) && (b == s.heap[i] || b in Take(s, i).heap)
  {
    var k :| 0 <= k < |s.heap| && s.heap[k] == b;
    if k != i { assert Without(s.heap, i)[if k < i then k else k - 1] == b; }
  }

  /** Attempts are served in order: while `b` stays in the heap nothing due after it is
      attempted, and it leaves the heap only to be attempted. */
  lemma NoOvertaking(s: State, choice: nat, outcome: Outcome, late: bool, b: Scheduled)
    requires b in s.heap
    ensures var t := Work(s, choice, outcome, late);
            if s.worker.Pop? && t != s then
              && Least(s.heap, choice) && t == Take(s, choice)
              && !Before(b, s.heap[choice]) && (b == s.heap[choice] || b in t.heap)
            else b in t.heap
  {
    match s.worker
    case Pop => if Least(s.heap, choice) { TakenInOrder(s, choice, b); }
    case Trying(hand, _) => if hand.expiresAt.Some? { TriedKind(s, outcome); }
    case Settling(_, _, _) =>
    case Reporting(_, _, _) =>
    case _ => LookKind(s, late);
  }

  /** This step is an attempt of a job from the heap. */
  predicate Attempts(s: State, step: Step) {
    s.left.None? && s.worker.Pop? && step.Works? && Least(s.heap, step.choice)
  }

  lemma StepInOrder(s: State, step: Step, b: Scheduled)
    requires b in s.heap
    ensures if Attempts(s, step)
            then !Before(b, s.heap[step.choice]) && (s.heap[step.choice] == b || b in Do(s, step).heap)
            else b in Do(s, step).heap
  {
    match step
    case Works(choice, outcome, late) => if s.left.None? { NoOvertaking(s, choice, outcome, late, b); }
    case _ =>
  }

  /** Step `k` does not attempt a job due after `b`. */
  ghost predicate Yields(states: seq<State>, steps: seq<Step>, k: nat, b: Scheduled)
    requires k < |steps| < |states|
  {
    Attempts(states[k], steps[k]) ==> !Before(b, states[k].heap[steps[k].choice])
  }

  ghost predicate Serves(states: seq<State>, steps: seq<Step>, k: nat, b: Scheduled)
    requires k < |steps| < |states|
  {
    Attempts(states[k], steps[k]) && states[k].heap[steps[k].choice] == b
  }

  lemma NextInOrder(capacity: nat, states: seq<State>, steps: seq<Step>, n: nat, b: Scheduled)
    requires IsRun(capacity, states, steps) && 0 < n < |states|
    requires b in states[n - 1].heap && !Serves(states, steps, n - 1, b)
    ensures b in states[n].heap && Yields(states, steps, n - 1, b)
  {
    StepInOrder(states[n - 1], steps[n - 1], b);
  }

  /** From any point of any run: as long as `b` has not been attempted it stays in the heap,
      and every attempt made meanwhile is of a job not due after `b`. */
  lemma {:induction false} DueGoesFirst(capacity: nat, states: seq<State>, steps: seq<Step>, m: nat, n: nat,
                                        b: Scheduled)
    requires IsRun(capacity, states, steps) && m <= n < |states| && b in states[m].heap
    requires forall k: nat | m <= k < n :: !Serves(states, steps, k, b)
    ensures b in states[n].heap && forall k: nat | m <= k < n :: Yields(states, steps, k, b)
    decreases n
  {
    if n > m {
      DueGoesFirst(capacity, states, steps, m, n - 1, b);
      NextInOrder(capacity, states, steps, n, b);
    }
  }

  /** So a busy job that goes back never overtakes one that was already due. */
  lemma RequeuedYields(s: State, outcome: Outcome, late: bool, b: Scheduled)
    requires s.worker.Trying? && s.worker.hand.expiresAt.Some? && b in s.heap && b.readyAt <= s.worker.at
    ensures var t := Work(s, 0, outcome, late);
            t.worker == Check ==> exists a :: t.heap == s.heap + [a] && a.job == s.worker.hand.job && Before(b, a)
  {
    if outcome.Error? && FailureDisposition(outcome.errno, s.worker.at, s.worker.hand.expiresAt.value) == Retry {
      var a := s.worker.hand.(readyAt := s.worker.at + RETRY_INTERVAL);
      assert Work(s, 0, outcome, late).heap == s.heap + [a];
    }
  }
}
