/** What becomes of each job is what the device last said of it. */
module SchedulerEvents {
  // Every job that comes to the worker has a serial number. The log, read for one number, is its
  // story: attempts, each with its answer, and at the end one event, if the worker got that far.

  import opened Basics
  import opened Wrappers
  import opened Scheduler
  import opened SchedulerSafety

  // ---------------------------------------------------------------- what an answer calls for

  /** EBUSY, EAGAIN or EINTR. */
  predicate Busy(outcome: Outcome) {
    outcome in {Error(Some(16)), Error(Some(11)), Error(Some(4))}
  }

  /** EACCES, EPERM, EINVAL, ENOENT, ENODEV, EIO or ETIMEDOUT. */
  predicate Curable(outcome: Outcome) {
    outcome in {Error(Some(13)), Error(Some(1)), Error(Some(22)), Error(Some(2)), Error(Some(19)), Error(Some(5)),
                Error(Some(110))}
  }

  /** Busy, less than 100 ms after the first attempt. */
  predicate Again(a: Effect) {
    a.Answered? && Busy(a.outcome) && a.at < a.first + 100_000_000
  }

  /** The event that a last answer calls for. */
  predicate Deserves(a: Effect, event: Event) {
    && a.Answered? && !Again(a)
    && match event
       case Submitted => a.outcome == Done
       case Stalled => Busy(a.outcome) || Curable(a.outcome)
       case Failed => a.outcome != Done && !Busy(a.outcome) && !Curable(a.outcome)
  }

  // ---------------------------------------------------------------- the story of one job

  predicate About(e: Effect, k: nat) {
    !e.Accepted? && e.serial == k
  }

  /** The last thing done about job `k`. */
  function Last(log: Log, k: nat): Option<Effect> {
    match log case Start => None case Then(before, e) => if About(e, k) then Some(e) else Last(before, k)
  }

  /** When it was first attempted. */
  function FirstTry(log: Log, k: nat): Option<nat> {
    match log
    case Start => None
    case Then(before, e) =>
      if FirstTry(before, k).None? && e.Attempted? && e.serial == k then Some(e.at) else FirstTry(before, k)
  }

  /** What was last attempted as job `k`. */
  function Tries(log: Log, k: nat): Option<Job> {
    match log
    case Start => None
    case Then(before, e) => if e.Attempted? && e.serial == k then Some(e.job) else Tries(before, k)
  }

  /** What may come next in the story: an attempt of a job not attempted before, or told to be busy
      within its window and at least 100 us ago; an answer to the attempt before it; an event that
      the answer before it calls for. */
  ghost predicate Follows(log: Log, e: Effect) {
    match e
    case Accepted(_) => true
    case Attempted(job, at, k) =>
      || (Last(log, k) == None && Tries(log, k) == None)
      || (Last(log, k).Some? && Again(Last(log, k).value) && at >= Last(log, k).value.at + 100_000
          && Tries(log, k) == Some(job))
    case Answered(first, at, _, k) =>
      && Last(log, k).Some? && Last(log, k).value.Attempted? && Last(log, k).value.at == at
      && FirstTry(log, k) == Some(first)
    case Reported(id, event, k) =>
      && Last(log, k).Some? && Deserves(Last(log, k).value, event)
      && Tries(log, k).Some? && Tries(log, k).value.id == id
  }

  ghost predicate Orderly(log: Log) {
    match log case Start => true case Then(before, e) => Orderly(before) && Follows(before, e)
  }

  // ---------------------------------------------------------------- where the job is meanwhile

  predicate InHand(w: Worker, k: nat) {
    match w
    case Trying(hand, _) => hand.serial == k
    case Settling(_, _, serial) => serial == k
    case Reporting(_, _, serial) => serial == k
    case _ => false
  }

  predicate InHeap(heap: seq<Scheduled>, k: nat) {
    exists i :: 0 <= i < |heap| && heap[i].serial == k
  }

  ghost predicate Untried(log: Log, k: nat) {
    Last(log, k) == None && FirstTry(log, k) == None && Tries(log, k) == None
  }

  /** A job in the heap: not attempted yet, or busy at its last attempt and due again after the
      interval. */
  ghost predicate Waits(log: Log, j: Scheduled) {
    if j.tries == 0 then Untried(log, j.serial)
    else
      var a := Last(log, j.serial);
      && a.Some? && Again(a.value) && a.value.first == j.first && j.readyAt == a.value.at + 100_000
      && FirstTry(log, j.serial) == Some(j.first) && Tries(log, j.serial) == Some(j.job)
  }

  ghost predicate Owed(log: Log, job: Job, event: Event, k: nat) {
    && Last(log, k).Some? && Deserves(Last(log, k).value, event)
    && Tries(log, k) == Some(job)
  }

  ghost predicate HandTells(w: Worker, log: Log, k: nat) {
    match w
    case Trying(hand, at) =>
      hand.serial == k ==>
        && Last(log, k) == Some(Attempted(hand.job, at, k)) && Tries(log, k) == Some(hand.job)
        && FirstTry(log, k) == Some(hand.first)
    case Settling(job, event, serial) => serial == k ==> Owed(log, job, event, k)
    case Reporting(job, event, serial) => serial == k ==> Owed(log, job, event, k)
    case _ => true
  }

  ghost predicate Single(heap: seq<Scheduled>, k: nat) {
    forall i, j | 0 <= i < j < |heap| && heap[i].serial == k :: heap[j].serial != k
  }

  /** Job `k` is where its story says. */
  ghost predicate Story(s: State, k: nat) {
    && Single(s.heap, k)
    && (forall i | 0 <= i < |s.heap| && s.heap[i].serial == k :: Waits(s.log, s.heap[i]))
    && HandTells(s.worker, s.log, k)
    && (InHeap(s.heap, k) ==> !InHand(s.worker, k) && k < s.arrived)
    && (InHand(s.worker, k) ==> k < s.arrived)
    && (k >= s.arrived ==> Untried(s.log, k))
    && (k < s.arrived && !InHeap(s.heap, k) && !InHand(s.worker, k) ==>
          Last(s.log, k).Some? && Last(s.log, k).value.Reported?)
  }

  ghost predicate Chronicle(s: State) {
    Orderly(s.log) && forall k: nat :: Story(s, k)
  }

  // ---------------------------------------------------------------- each action keeps it

  /** Nothing about any job is done. */
  ghost predicate Still(s: State, t: State) {
    && t.heap == s.heap && t.arrived == s.arrived && t.worker == s.worker
    && (t.log == s.log || (t.log.Then? && t.log.before == s.log && t.log.last.Accepted?))
  }

  lemma StillStory(s: State, t: State, k: nat)
    requires Story(s, k) && Still(s, t)
    ensures Story(t, k)
  {
  }

  lemma MoveStory(s: State, t: State, k: nat)
    requires Story(s, k) && Free(s.worker) && Moves(s, t)
    ensures Story(t, k)
  {
  }

  lemma ScheduleStory(s: State, t: State, k: nat)
    requires Story(s, k) && Free(s.worker) && Schedules(s, t)
    ensures Story(t, k)
  {
    var n := |s.heap|;
    assert t.heap[..n] == s.heap;
    if k == s.arrived {
      assert !InHeap(s.heap, k);
      assert t.heap[n].serial == k;
    } else {
      assert InHeap(t.heap, k) <==> InHeap(s.heap, k) by {
        if InHeap(s.heap, k) { var i :| 0 <= i < n && s.heap[i].serial == k; assert t.heap[i] == s.heap[i]; }
      }
    }
  }

  /** Taking a job out leaves the others, and no second one of its number. */
  lemma HeapWithout(heap: seq<Scheduled>, i: nat, k: nat)
    requires i < |heap| && Single(heap, k)
    ensures var rest := Without(heap, i);
            && Single(rest, k) && (InHeap(rest, k) <==> InHeap(heap, k) && heap[i].serial != k)
            && forall j | j in rest :: j in heap
  {
    var rest := Without(heap, i);
    assert forall a | 0 <= a < |rest| :: rest[a] == heap[if a < i then a else a + 1];
    if InHeap(heap, k) && heap[i].serial != k {
      var a :| 0 <= a < |heap| && heap[a].serial == k;
      assert rest[if a < i then a else a - 1] == heap[a];
    }
  }

  lemma TakeStory(s: State, i: nat, k: nat)
    requires Story(s, k) && s.worker.Pop? && i < |s.heap| && Timely(s.heap[i])
    ensures Story(Take(s, i), k)
  {
    var (t, j) := (Take(s, i), s.heap[i]);
    HeapWithout(s.heap, i, k);
    assert j.serial == k ==> InHeap(s.heap, k) && Waits(s.log, j);
    forall a | 0 <= a < |t.heap| && t.heap[a].serial == k ensures Waits(t.log, t.heap[a]) {
      assert t.heap[a] == s.heap[if a < i then a else a + 1];
    }
  }

  lemma TakeFollows(s: State, i: nat)
    requires Placed(s) && AllTimely(s) && s.worker.Pop? && Least(s.heap, i) && Story(s, s.heap[i].serial)
    ensures Follows(s.log, Take(s, i).log.last)
  {
    LeastIsDue(s.heap, i);
    assert Waits(s.log, s.heap[i]);
  }

  /** The answer recorded for the attempt in hand. */
  function Reply(s: State, outcome: Outcome): Effect
    requires s.worker.Trying?
  {
    Answered(s.worker.hand.first, s.worker.at, outcome, s.worker.hand.serial)
  }

  /** What the worker does with an answer: puts the job back for 100 us if it is to be tried again,
      and otherwise settles it with the event the answer calls for. */
  lemma TriedMeans(s: State, outcome: Outcome)
    requires s.worker.Trying? && OnTime(s.worker.hand, s.worker.at)
    ensures var (t, a) := (Tried(s, outcome), Reply(s, outcome));
            && t.log == Then(s.log, a)
            && if Again(a) then
                 t.worker == Check && t.heap == s.heap + [s.worker.hand.(readyAt := a.at + 100_000)]
               else
                 && t.heap == s.heap && t.worker.Settling? && t.worker.job == s.worker.hand.job
                 && t.worker.serial == s.worker.hand.serial && Deserves(a, t.worker.event)
    ensures Tried(s, outcome).arrived == s.arrived
  {
  }

  lemma HeapWith(heap: seq<Scheduled>, j: Scheduled, k: nat)
    requires Single(heap, k) && (j.serial == k ==> !InHeap(heap, k))
    ensures Single(heap + [j], k) && (InHeap(heap + [j], k) <==> InHeap(heap, k) || j.serial == k)
  {
    var more := heap + [j];
    assert more[|heap|] == j && forall a | 0 <= a < |heap| :: more[a] == heap[a];
    if InHeap(heap, k) {
      var a :| 0 <= a < |heap| && heap[a].serial == k;
      assert more[a].serial == k;
    }
  }

  lemma TriedStory(s: State, outcome: Outcome, k: nat)
    requires Story(s, k) && s.worker.Trying? && OnTime(s.worker.hand, s.worker.at)
    ensures Story(Tried(s, outcome), k)
  {
    TriedMeans(s, outcome);
    var (t, hand) := (Tried(s, outcome), s.worker.hand);
    if Again(Reply(s, outcome)) {
      var j := hand.(readyAt := s.worker.at + 100_000);
      assert hand.serial == k ==> InHand(s.worker, k);
      HeapWith(s.heap, j, k);
      forall a | 0 <= a < |t.heap| && t.heap[a].serial == k ensures Waits(t.log, t.heap[a]) {
        if a < |s.heap| { assert t.heap[a] == s.heap[a] && InHeap(s.heap, k); }
      }
    } else if InHeap(s.heap, k) {
      assert hand.serial != k;
    }
  }

  lemma SettleStory(s: State, k: nat)
    requires Story(s, k) && s.worker.Settling?
    ensures Story(Settle(s), k)
  {
  }

  lemma ReportStory(s: State, k: nat)
    requires Story(s, k) && s.worker.Reporting?
    ensures Story(Report(s), k)
  {
    var t := Report(s);
    if s.worker.serial == k { assert InHand(s.worker, k) && !InHeap(s.heap, k); }
  }

  lemma WorkStory(s: State, choice: nat, outcome: Outcome, late: bool, k: nat)
    requires Good(s, 0) && s.left.None? && Story(s, k)
    ensures Story(Work(s, choice, outcome, late), k)
  {
    match s.worker
    case Pop => if Least(s.heap, choice) { TakeStory(s, choice, k); }
    case Trying(_, _) => TriedStory(s, outcome, k);
    case Settling(_, _, _) => SettleStory(s, k);
    case Reporting(_, _, _) => ReportStory(s, k);
    case _ =>
      LookKind(s, late);
      if Moves(s, Look(s, late)) { MoveStory(s, Look(s, late), k); } else { ScheduleStory(s, Look(s, late), k); }
  }

  lemma TriedFollows(s: State, outcome: Outcome)
    requires s.worker.Trying? && OnTime(s.worker.hand, s.worker.at) && Story(s, s.worker.hand.serial)
    ensures Tried(s, outcome).log == Then(s.log, Reply(s, outcome)) && Follows(s.log, Reply(s, outcome))
  {
    TriedMeans(s, outcome);
  }

  lemma ReportFollows(s: State)
    requires s.worker.Reporting? && Story(s, s.worker.serial)
    ensures Report(s).log.Then? && Report(s).log.before == s.log && Follows(s.log, Report(s).log.last)
  {
  }

  lemma WorkOrderly(s: State, choice: nat, outcome: Outcome, late: bool)
    requires Good(s, 0) && s.left.None? && Chronicle(s)
    ensures Orderly(Work(s, choice, outcome, late).log)
  {
    match s.worker
    case Pop => if Least(s.heap, choice) { TakeFollows(s, choice); }
    case Trying(hand, _) =>
      assert Story(s, hand.serial);
      TriedFollows(s, outcome);
    case Settling(_, _, _) =>
    case Reporting(_, _, serial) =>
      assert Story(s, serial);
      ReportFollows(s);
    case _ => LookKind(s, late);
  }

  lemma StepStory(s: State, step: Step, k: nat)
    requires Good(s, 0) && Story(s, k)
    ensures Story(Do(s, step), k)
  {
    match step
    case Works(choice, outcome, late) => if s.left.None? { WorkStory(s, choice, outcome, late, k); }
    case _ => StillStory(s, Do(s, step), k);
  }

  lemma StepChronicle(s: State, step: Step)
    requires Good(s, 0) && Chronicle(s)
    ensures Chronicle(Do(s, step))
  {
    forall k: nat ensures Story(Do(s, step), k) { StepStory(s, step, k); }
    match step
    case Works(choice, outcome, late) => if s.left.None? { WorkOrderly(s, choice, outcome, late); }
    case _ => assert Still(s, Do(s, step));
  }

  lemma NextChronicle(capacity: nat, states: seq<State>, steps: seq<Step>, n: nat)
    requires IsRun(capacity, states, steps) && 0 < n < |states| && Good(states[n - 1], 0) && Chronicle(states[n - 1])
    ensures Chronicle(states[n])
  {
    StepChronicle(states[n - 1], steps[n - 1]);
  }

  lemma {:induction false} EveryRunChronicled(capacity: nat, states: seq<State>, steps: seq<Step>, n: nat)
    requires IsRun(capacity, states, steps) && n < |states|
    ensures Chronicle(states[n])
    decreases n
  {
    if n > 0 {
      EveryRunGood(capacity, states, steps, n - 1, 0);
      EveryRunChronicled(capacity, states, steps, n - 1);
      NextChronicle(capacity, states, steps, n);
    }
  }

  // ---------------------------------------------------------------- equally due, in order of arrival

  /** The arrival order is the serial number in 64 bits. */
  predicate Numbered(j: Scheduled) {
    j.order == j.serial % 0x1_0000_0000_0000_0000
  }

  ghost predicate Ordered(s: State) {
    && s.order == s.arrived % 0x1_0000_0000_0000_0000
    && (forall j | j in s.heap :: Numbered(j))
    && (s.worker.Trying? ==> Numbered(s.worker.hand))
  }

  lemma TakeOrdered(s: State, i: nat)
    requires Ordered(s) && i < |s.heap|
    ensures Ordered(Take(s, i))
  {
    assert s.heap[i] in s.heap;
  }

  lemma TriedOrdered(s: State, outcome: Outcome)
    requires Ordered(s) && s.worker.Trying? && s.worker.hand.expiresAt.Some?
    ensures Ordered(Tried(s, outcome))
  {
    TriedKind(s, outcome);
  }

  lemma NextOrder(n: nat)
    ensures (n % 0x1_0000_0000_0000_0000 + 1) % 0x1_0000_0000_0000_0000 == (n + 1) % 0x1_0000_0000_0000_0000
  {
  }

  lemma LookOrdered(s: State, late: bool)
    requires Ordered(s) && Free(s.worker)
    ensures Ordered(Look(s, late))
  {
    LookKind(s, late);
    NextOrder(s.arrived);
  }

  lemma WorkOrdered(s: State, choice: nat, outcome: Outcome, late: bool)
    requires Ordered(s)
    ensures Ordered(Work(s, choice, outcome, late))
  {
    match s.worker
    case Pop => if Least(s.heap, choice) { TakeOrdered(s, choice); }
    case Trying(hand, _) => if hand.expiresAt.Some? { TriedOrdered(s, outcome); }
    case Settling(_, _, _) =>
    case Reporting(_, _, _) =>
    case _ => LookOrdered(s, late);
  }

  lemma NextOrdered(capacity: nat, states: seq<State>, steps: seq<Step>, n: nat)
    requires IsRun(capacity, states, steps) && 0 < n < |states| && Ordered(states[n - 1])
    ensures Ordered(states[n])
  {
    var (s, step) := (states[n - 1], steps[n - 1]);
    if step.Works? && s.left.None? { WorkOrdered(s, step.choice, step.outcome, step.late); }
  }

  lemma {:induction false} EveryRunOrdered(capacity: nat, states: seq<State>, steps: seq<Step>, n: nat)
    requires IsRun(capacity, states, steps) && n < |states|
    ensures Ordered(states[n])
    decreases n
  {
    if n > 0 {
      EveryRunOrdered(capacity, states, steps, n - 1);
      NextOrdered(capacity, states, steps, n);
    }
  }

  /** Of two jobs in the heap that are due at the same time the one that came first goes first, if and
      only if no multiple of 2^64 lies between their serial numbers. */
  lemma OldestFirst(capacity: nat, states: seq<State>, steps: seq<Step>, n: nat, a: Scheduled, b: Scheduled)
    requires IsRun(capacity, states, steps) && n < |states| && a in states[n].heap && b in states[n].heap
    requires a.readyAt == b.readyAt && a.serial < b.serial < a.serial + 0x1_0000_0000_0000_0000
    ensures Before(a, b) <==> a.serial / 0x1_0000_0000_0000_0000 == b.serial / 0x1_0000_0000_0000_0000
  {
    EveryRunOrdered(capacity, states, steps, n);
    var w := 0x1_0000_0000_0000_0000;
    Wrapped(a.serial, b.serial, w);
  }

  lemma {:induction false} Multiples(p: nat, q: nat, w: nat)
    requires p < q
    ensures q * w >= p * w + w
    decreases q
  {
    assert q * w == (q - 1) * w + w;
    if p < q - 1 { Multiples(p, q - 1, w); }
  }

  /** Within one multiple of `w` remainders are in order, and across one they are not. */
  lemma Wrapped(a: nat, b: nat, w: nat)
    requires a < b < a + w
    ensures a % w < b % w <==> a / w == b / w
  {
    var (p, q) := (a / w, b / w);
    var (x, y) := (p * w, q * w);
    assert a == x + a % w && b == y + b % w;
    if p < q { Multiples(p, q, w); }
    if q < p { Multiples(q, p, w); }
  }

  // ---------------------------------------------------------------- what follows

  /** Over every run: a job is attempted again only if its last answer was busy within 100 ms of its
      first attempt, and at least 100 us later; every answer is to the attempt before it; and the
      event reported for a job is the one its last answer calls for. */
  lemma EventsFollowAnswers(capacity: nat, states: seq<State>, steps: seq<Step>, n: nat)
    requires IsRun(capacity, states, steps) && n < |states|
    ensures Orderly(states[n].log)
  {
    EveryRunChronicled(capacity, states, steps, n);
  }

  ghost predicate Retries(heap: seq<Scheduled>, k: nat, ready: nat) {
    exists i :: 0 <= i < |heap| && heap[i].serial == k && heap[i].readyAt == ready
  }

  /** And at any point of it, for any job that came to the worker: with such an answer it is in the
      heap, to be tried again after 100 us; with any other the worker is about to report the event
      that answer calls for; once reported it is gone. */
  lemma AnswerDecides(capacity: nat, states: seq<State>, steps: seq<Step>, n: nat, k: nat)
    requires IsRun(capacity, states, steps) && n < |states| && k < states[n].arrived
    ensures var (s, last) := (states[n], Last(states[n].log, k));
            match last
            case None => InHeap(s.heap, k)
            case Some(e) =>
              && (e.Attempted? <==> s.worker.Trying? && s.worker.hand.serial == k)
              && (Again(e) ==> Retries(s.heap, k, e.at + 100_000))
              && (e.Answered? && !Again(e) ==>
                    (s.worker.Settling? || s.worker.Reporting?) && s.worker.serial == k && Deserves(e, s.worker.event))
              && (e.Reported? <==> !InHeap(s.heap, k) && !InHand(s.worker, k))
  {
    EveryRunChronicled(capacity, states, steps, n);
    var s := states[n];
    assert Story(s, k);
    if InHeap(s.heap, k) {
      var i :| 0 <= i < |s.heap| && s.heap[i].serial == k;
      assert Waits(s.log, s.heap[i]);
    }
  }
}
