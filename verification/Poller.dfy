/** The notifier protocol of the poller. */
module Poller {
  // Any number of threads notify and any number wait, over two flags and an event counter.
  // Each step is one atomic action, so a run is any interleaving.

  import opened Basics

  /** The largest value an event counter can hold. */
  const COUNTER_MAX := 0xffff_ffff_ffff_fffe

  /** Where a waiting thread is: outside, blocked in the poll, back with or without the
      notifier among the ready sources, between its read and its store, or about to let the
      next waiter in. */
  datatype Phase = Outside | Polling | Back(seen: bool) | Drained | Leaving

  /** `writers` are the notifying threads between their exchange and their write. */
  datatype State = State(notified: bool, waiting: bool, counter: nat, writers: nat, threads: seq<Phase>)

  function Initial(n: nat): State {
    State(false, false, 0, 0, seq(n, _ => Outside))
  }

  datatype Polled = Interrupted | Failed | Ready(seen: bool)

  datatype Step =
    | Exchange
    | Write
    | Enter(i: nat)
    | Poll(i: nat, result: Polled)
    | Read(i: nat)
    | Store(i: nat)
    | Leave(i: nat)

  function At(s: State, i: nat, p: Phase): State
    requires i < |s.threads|
  {
    s.(threads := s.threads[i := p])
  }

  /** Steps that are not possible leave the state as it is. */
  function Do(s: State, step: Step): State {
    match step
    case Exchange => if s.notified then s else s.(notified := true, writers := s.writers + 1)
    case Write =>
      if s.writers == 0 then s
      else s.(writers := s.writers - 1, counter := if s.counter < COUNTER_MAX then s.counter + 1 else s.counter)
    case Enter(i) =>
      if i >= |s.threads| || s.threads[i] != Outside || s.waiting then s
      else At(s.(waiting := true), i, Polling)
    case Poll(i, result) =>
      if i >= |s.threads| || s.threads[i] != Polling then s
      else (match result
            case Interrupted => s
            case Failed => At(s, i, Leaving)
            case Ready(seen) => if seen && s.counter == 0 then s else At(s, i, Back(seen)))
    case Read(i) =>
      if i >= |s.threads| || !s.threads[i].Back? then s
      else if s.threads[i].seen then At(s.(counter := 0), i, Drained)
      else At(s, i, Leaving)
    case Store(i) =>
      if i >= |s.threads| || s.threads[i] != Drained then s else At(s.(notified := false), i, Leaving)
    case Leave(i) =>
      if i >= |s.threads| || s.threads[i] != Leaving then s else At(s.(waiting := false), i, Outside)
  }

  ghost predicate IsRun(n: nat, states: seq<State>, steps: seq<Step>) {
    && |states| == |steps| + 1 && states[0] == Initial(n)
    && forall k {:trigger steps[k]} | 0 <= k < |steps| :: states[k + 1] == Do(states[k], steps[k])
  }

  // ---------------------------------------------------------------- invariant

  /** Threads that hold the poll. */
  function Inside(threads: seq<Phase>): nat {
    if threads == [] then 0 else One(!threads[0].Outside?) + Inside(threads[1..])
  }

  /** Threads between their read and their store. */
  function Draining(threads: seq<Phase>): nat {
    if threads == [] then 0 else One(threads[0].Drained?) + Draining(threads[1..])
  }

  lemma {:induction false} Moved(threads: seq<Phase>, i: nat, p: Phase)
    requires i < |threads|
    ensures Inside(threads[i := p]) == Inside(threads) - One(!threads[i].Outside?) + One(!p.Outside?)
    ensures Draining(threads[i := p]) == Draining(threads) - One(threads[i].Drained?) + One(p.Drained?)
    ensures One(!threads[i].Outside?) <= Inside(threads)
    ensures One(threads[i].Drained?) <= Draining(threads) <= Inside(threads)
  {
    if i > 0 {
      assert threads[i := p][1..] == threads[1..][i - 1 := p];
      Moved(threads[1..], i - 1, p);
    } else {
      assert threads[i := p][1..] == threads[1..];
      DrainingInside(threads[1..]);
    }
  }

  lemma {:induction false} DrainingInside(threads: seq<Phase>)
    ensures Draining(threads) <= Inside(threads)
  {
    if threads != [] { DrainingInside(threads[1..]); }
  }

  lemma {:induction false} NoneInside(n: nat)
    ensures Inside(seq(n, _ => Outside)) == 0 && Draining(seq(n, _ => Outside)) == 0
    decreases n
  {
    if n > 0 {
      assert seq(n, _ => Outside)[1..] == seq(n - 1, _ => Outside);
      NoneInside(n - 1);
    }
  }

  /** A thread that came back with the notifier finds it still counted. */
  ghost predicate SeenIsThere(s: State) {
    forall i | 0 <= i < |s.threads| && s.threads[i] == Back(true) :: s.counter == 1
  }

  /** The flag stands for exactly one of: a write still to come, the counter at 1, a waiter
      that has read and not yet stored. And one thread at most holds the poll. */
  ghost predicate Accounted(s: State) {
    && s.writers + s.counter + Draining(s.threads) == One(s.notified)
    && Inside(s.threads) == One(s.waiting)
    && SeenIsThere(s)
  }

  lemma {:induction false} TwoInside(threads: seq<Phase>, i: nat, j: nat)
    requires i < j < |threads| && !threads[i].Outside? && !threads[j].Outside?
    ensures Inside(threads) >= 2
  {
    if i > 0 {
      TwoInside(threads[1..], i - 1, j - 1);
    } else {
      Moved(threads[1..], j - 1, Outside);
    }
  }

  lemma Alone(s: State, i: nat, j: nat)
    requires Inside(s.threads) <= 1 && i < |s.threads| && j < |s.threads| && i != j && !s.threads[i].Outside?
    ensures s.threads[j].Outside?
  {
    if !s.threads[j].Outside? { TwoInside(s.threads, if i < j then i else j, if i < j then j else i); }
  }

  lemma ReadAccounted(s: State, i: nat)
    requires Accounted(s) && i < |s.threads| && s.threads[i] == Back(true)
    ensures Accounted(Do(s, Read(i)))
  {
    Moved(s.threads, i, Drained);
    var t := Do(s, Read(i));
    forall j | 0 <= j < |t.threads| ensures t.threads[j] != Back(true) {
      if j != i { Alone(s, i, j); }
    }
  }

  lemma PollAccounted(s: State, i: nat, result: Polled)
    requires Accounted(s) && i < |s.threads|
    ensures Accounted(Do(s, Poll(i, result)))
  {
    Moved(s.threads, i, Leaving);
    if result.Ready? { Moved(s.threads, i, Back(result.seen)); }
  }

  lemma StepAccounted(s: State, step: Step)
    requires Accounted(s)
    ensures Accounted(Do(s, step))
  {
    match step
    case Exchange =>
    case Write =>
    case Read(i) =>
      if i < |s.threads| && s.threads[i].Back? {
        if s.threads[i].seen { ReadAccounted(s, i); } else { Moved(s.threads, i, Leaving); }
      }
    case Enter(i) => if i < |s.threads| { Moved(s.threads, i, Polling); }
    case Poll(i, result) => if i < |s.threads| { PollAccounted(s, i, result); }
    case Store(i) => if i < |s.threads| { Moved(s.threads, i, Leaving); }
    case Leave(i) => if i < |s.threads| { Moved(s.threads, i, Outside); }
  }

  lemma NextAccounted(n: nat, states: seq<State>, steps: seq<Step>, k: nat)
    requires IsRun(n, states, steps) && 0 < k < |states| && Accounted(states[k - 1])
    ensures Accounted(states[k])
  {
    StepAccounted(states[k - 1], steps[k - 1]);
  }

  lemma {:induction false} EveryRunAccounted(n: nat, states: seq<State>, steps: seq<Step>, k: nat)
    requires IsRun(n, states, steps) && k < |states|
    ensures Accounted(states[k])
    decreases k
  {
    if k > 0 {
      EveryRunAccounted(n, states, steps, k - 1);
      NextAccounted(n, states, steps, k);
    } else {
      NoneInside(n);
    }
  }

  // ---------------------------------------------------------------- what follows

  /** In every interleaving the flag is up exactly when exactly one of these is so: one
      notifier is between its exchange and its write, the counter is 1, or one waiter is
      between its read and its store. The counter is never saturated, so no write fails. */
  lemma FlagIsExact(n: nat, states: seq<State>, steps: seq<Step>, k: nat)
    requires IsRun(n, states, steps) && k < |states|
    ensures var s := states[k];
            && s.counter <= 1 && s.writers <= 1 && Draining(s.threads) <= 1
            && (s.notified <==> s.writers == 1 || s.counter == 1 || Draining(s.threads) == 1)
            && !(s.writers == 1 && s.counter == 1)
            && !(s.writers == 1 && Draining(s.threads) == 1)
            && !(s.counter == 1 && Draining(s.threads) == 1)
  {
    EveryRunAccounted(n, states, steps, k);
  }

  /** At most one thread holds the poll, exactly while the other flag is up. */
  lemma OneWaiterAtATime(n: nat, states: seq<State>, steps: seq<Step>, k: nat, i: nat, j: nat)
    requires IsRun(n, states, steps) && k < |states| && i < |states[k].threads| && j < |states[k].threads| && i != j
    ensures states[k].threads[i].Outside? || states[k].threads[j].Outside?
    ensures !states[k].threads[i].Outside? ==> states[k].waiting
  {
    EveryRunAccounted(n, states, steps, k);
    if !states[k].threads[i].Outside? { Alone(states[k], i, j); }
    Moved(states[k].threads, i, Outside);
  }

  /** This step ends a wait that took the notification. */
  predicate Takes(s: State, step: Step) {
    step.Store? && step.i < |s.threads| && s.threads[step.i] == Drained
  }

  ghost predicate TakenAt(states: seq<State>, steps: seq<Step>, k: nat)
    requires k < |steps| < |states|
  {
    Takes(states[k], steps[k])
  }

  lemma StaysUp(s: State, step: Step)
    requires (s.notified && !Takes(s, step)) || step.Exchange?
    ensures Do(s, step).notified
  {
  }

  lemma NextStaysUp(n: nat, states: seq<State>, steps: seq<Step>, k: nat)
    requires IsRun(n, states, steps) && k < |steps|
    requires (states[k].notified && !TakenAt(states, steps, k)) || steps[k].Exchange?
    ensures states[k + 1].notified
  {
    StaysUp(states[k], steps[k]);
  }

  lemma {:induction false} UpUntilTaken(n: nat, states: seq<State>, steps: seq<Step>, m: nat, k: nat)
    requires IsRun(n, states, steps) && m < k < |states| && steps[m].Exchange?
    requires forall l: nat | m < l < k :: !TakenAt(states, steps, l)
    ensures states[k].notified
    decreases k
  {
    if k - 1 > m { UpUntilTaken(n, states, steps, m, k - 1); }
    NextStaysUp(n, states, steps, k - 1);
  }

  /** No lost wake-up: after any notify, until a wait takes a notification and returns, a
      thread that blocks in the poll with nothing to read is blocked only because some
      notifier's write is still to come. */
  lemma NoLostWakeup(n: nat, states: seq<State>, steps: seq<Step>, m: nat, k: nat, i: nat)
    requires IsRun(n, states, steps) && m < k < |states| && steps[m].Exchange?
    requires forall l: nat | m < l < k :: !TakenAt(states, steps, l)
    requires i < |states[k].threads| && states[k].threads[i] == Polling
    ensures states[k].counter == 1 || states[k].writers == 1
  {
    UpUntilTaken(n, states, steps, m, k);
    EveryRunAccounted(n, states, steps, k);
    PollingExcludesDraining(states[k], i);
  }

  lemma PollingExcludesDraining(s: State, i: nat)
    requires Inside(s.threads) <= 1 && i < |s.threads| && s.threads[i] == Polling
    ensures Draining(s.threads) == 0
  {
    Moved(s.threads, i, Outside);
    DrainingInside(s.threads[i := Outside]);
  }

  // ---------------------------------------------------------------- waits return

  function Steps(s: State, steps: seq<Step>): State {
    if steps == [] then s else Do(Steps(s, steps[..|steps| - 1]), steps[|steps| - 1])
  }

  lemma FourSteps(s: State, a: Step, b: Step, c: Step, d: Step)
    ensures Steps(s, [a, b, c, d]) == Do(Do(Do(Do(s, a), b), c), d)
  {
    assert [a, b, c, d][..3] == [a, b, c] && [a, b, c][..2] == [a, b] && [a, b][..1] == [a] && [a][..0] == [];
    assert Steps(s, [a]) == Do(s, a);
    assert Steps(s, [a, b]) == Do(Do(s, a), b);
  }

  /** A polling thread with something to read comes back with the notifier, takes what is there,
      lowers the flag and lets the next one in. */
  lemma ReadyWaitReturns(s: State, i: nat)
    requires Accounted(s) && i < |s.threads| && s.threads[i] == Polling && s.counter == 1
    ensures Steps(s, [Poll(i, Ready(true)), Read(i), Store(i), Leave(i)])
            == State(false, false, 0, s.writers, s.threads[i := Outside])
  {
    var t := Do(s, Poll(i, Ready(true)));
    assert t == At(s, i, Back(true));
    var u := Do(t, Read(i));
    assert u == At(s.(counter := 0), i, Drained);
    FourSteps(s, Poll(i, Ready(true)), Read(i), Store(i), Leave(i));
  }

  /** So after any notify, until a wait takes a notification, a polling thread returns as soon as the
      write that is still to come, if any, is there. */
  lemma NotifiedWaitReturns(n: nat, states: seq<State>, steps: seq<Step>, m: nat, k: nat, i: nat)
    requires IsRun(n, states, steps) && m < k < |states| && steps[m].Exchange?
    requires forall l: nat | m < l < k :: !TakenAt(states, steps, l)
    requires i < |states[k].threads| && states[k].threads[i] == Polling
    ensures var s := if states[k].counter == 1 then states[k] else Do(states[k], Write);
            Steps(s, [Poll(i, Ready(true)), Read(i), Store(i), Leave(i)])
            == State(false, false, 0, 0, states[k].threads[i := Outside])
  {
    NoLostWakeup(n, states, steps, m, k, i);
    EveryRunAccounted(n, states, steps, k);
    var s := states[k];
    StepAccounted(s, Write);
    ReadyWaitReturns(if s.counter == 1 then s else Do(s, Write), i);
  }

  /** A wait that ends for another reason, or fails, leaves the notification for the next; and one can
      begin whenever none is in progress. */
  lemma OtherWaitReturns(s: State, i: nat)
    requires Accounted(s) && i < |s.threads|
    ensures s.threads[i] == Polling ==>
              Do(Do(Do(s, Poll(i, Ready(false))), Read(i)), Leave(i))
              == s.(waiting := false, threads := s.threads[i := Outside])
    ensures s.threads[i] == Polling ==>
              Do(Do(s, Poll(i, Failed)), Leave(i)) == s.(waiting := false, threads := s.threads[i := Outside])
    ensures s.threads[i] == Outside && !s.waiting ==>
              Do(s, Enter(i)) == s.(waiting := true, threads := s.threads[i := Polling])
  {
    if s.threads[i] == Polling {
      assert Do(s, Poll(i, Ready(false))) == At(s, i, Back(false));
      assert Do(s, Poll(i, Failed)) == At(s, i, Leaving);
    }
  }

  /** Nothing to read, no return with the notifier. */
  lemma NoFalseWakeup(s: State, i: nat)
    requires s.counter == 0
    ensures Do(s, Poll(i, Ready(true))) == s && Do(s, Poll(i, Interrupted)) == s
  {
  }
}
