/** Whole runs of the authentication agent: what keeps its dialogs disciplined, and the runs in
    which something else happens. */
module AgentRuns {
  import opened Wrappers
  import opened Agent
  import opened AgentDiscipline

  // ---------------------------------------------------------------- every run

  /** No call of the run breaks the discipline. */
  ghost predicate Unbroken(inputs: seq<Input>) {
    inputs == [] || var n := |inputs| - 1;
    Unbroken(inputs[..n]) && !BreaksOn(Run(INITIAL, inputs[..n]), inputs[n])
  }

  /** The discipline holds after every call of the run. */
  ghost predicate Throughout(inputs: seq<Input>) {
    Disciplined(Run(INITIAL, inputs)) && (inputs == [] || Throughout(inputs[..|inputs| - 1]))
  }

  /** Every run is disciplined throughout if and only if no failure comes before the first
      conversation, which makes the agent panic, and none is the 256th of its dialog, which
      reopens it: a live session is the attempt after the last failure, for an identity the
      request offers; there are at most three; none is live once the dialog is closing, and it
      is closing only after three. */
  lemma {:induction false} EveryRunDisciplined(inputs: seq<Input>)
    ensures Throughout(inputs) <==> Unbroken(inputs)
    decreases |inputs|
  {
    if inputs != [] {
      var n := |inputs| - 1;
      EveryRunDisciplined(inputs[..n]);
      if Throughout(inputs[..n]) { StepDisciplined(Run(INITIAL, inputs[..n]), inputs[n]); }
    }
  }

  /** So at the end of such a run. */
  lemma UnbrokenDisciplined(inputs: seq<Input>)
    requires Unbroken(inputs)
    ensures Disciplined(Run(INITIAL, inputs))
  {
    EveryRunDisciplined(inputs);
  }

  /** After every such run, the next call returns no request but the active one, when it may, and
      does not panic, if and only if it is not the completion of a conversation that is not live
      and either succeeds or comes before the first. */
  lemma ReturnsOnlyIff(inputs: seq<Input>, i: Input)
    requires Unbroken(inputs)
    ensures ReturnsOnly(Run(INITIAL, inputs), i, Run(INITIAL, inputs + [i])) <==> !RogueOn(Run(INITIAL, inputs), i)
  {
    UnbrokenDisciplined(inputs);
    StepDisciplined(Run(INITIAL, inputs), i);
    Appended(inputs, i);
  }

  // ---------------------------------------------------------------- an identity to try again with

  /** There was no panic, and after the first conversation there is an identity. */
  ghost predicate Identified(s: State) {
    && !Outcomes(s.log).Has(Panicked)
    && (s.active.Some? && s.active.value.attempt >= 1 ==> s.active.value.uid.Some?)
  }

  predicate Numbered(e: Event) {
    e.Talk? && e.conversation.Completed? ==> e.attempt >= 1
  }

  /** Conversations that complete are numbered from 1. */
  ghost predicate NumberedRun(inputs: seq<Input>) {
    forall k {:trigger inputs[k]} | 0 <= k < |inputs| && inputs[k].OnEvent? :: Numbered(inputs[k].event)
  }

  lemma {:induction false} OpenIdentified(s: State, w: World)
    requires Identified(s) && s.active.None?
    ensures Identified(OpenNext(s, w))
    decreases |s.pending|
  {
    if s.pending != [] {
      var (r, id) := (s.pending[0], s.nextId + 1);
      var t := s.(pending := s.pending[1..], nextId := id);
      if !w.spawn(id) { OpenIdentified(Logged(t, Answered(r.id, Failed)), w); }
    }
  }

  lemma StartNextIdentified(s: State, w: World)
    requires Identified(s)
    ensures Identified(StartNext(s, w))
  {
    CancelAllSilent(s);
    if s.active.None? { OpenIdentified(s, w); }
  }

  lemma ReactIdentified(s: State, e: Event, w: World)
    requires Identified(s) && !Stale(s, e) && Numbered(e)
    ensures Identified(React(s, e, w))
  {
    CancelAllSilent(s);
    if e.Cancel? { CancelQuiet(s, e.cookie); }
  }

  lemma StepIdentified(s: State, i: Input)
    requires Identified(s) && (i.OnEvent? ==> Numbered(i.event))
    ensures Identified(Step(s, i))
  {
    match i
    case OnEvent(e, w) =>
      var r := Arrived(s, e);
      CancelAllSilent(r);
      var t := Checked(r, w);
      if !Stale(t, e) {
        ReactIdentified(t, e, w);
        StartNextIdentified(React(t, e, w), w);
      }
    case OnTick(w) =>
      CancelAllSilent(s);
      var t := Checked(s, w);
      StartNextIdentified(t, w);
      StartNextIdentified(Finish(t, Normal), w);
      StartNextIdentified(Finish(t, Cancelled), w);
  }

  lemma {:induction false} EveryRunIdentified(inputs: seq<Input>)
    requires NumberedRun(inputs)
    ensures Identified(Run(INITIAL, inputs))
    decreases |inputs|
  {
    if inputs != [] {
      var n := |inputs| - 1;
      assert forall k {:trigger inputs[..n][k]} | 0 <= k < n :: inputs[..n][k] == inputs[k];
      EveryRunIdentified(inputs[..n]);
      StepIdentified(Run(INITIAL, inputs[..n]), inputs[n]);
    }
  }

  /** So in no such run does the agent panic for want of an identity to try again with. */
  lemma NeverPanics(inputs: seq<Input>)
    requires NumberedRun(inputs)
    ensures !Run(INITIAL, inputs).log.Has(Panicked)
  {
    EveryRunIdentified(inputs);
    OutcomesHavePanic(Run(INITIAL, inputs).log);
  }

  // ---------------------------------------------------------------- conversations that end once

  /** A conversation, numbered from 1, completes only once. */
  ghost predicate Plausible(s: State, i: Input) {
    i.OnEvent? && i.event.Talk? && i.event.conversation.Completed? ==>
      i.event.attempt >= 1 && !Spoken(s.log).Has(Ended(i.event.id, i.event.attempt))
  }

  ghost predicate PlausibleRun(inputs: seq<Input>) {
    inputs == [] || var n := |inputs| - 1;
    PlausibleRun(inputs[..n]) && Plausible(Run(INITIAL, inputs[..n]), inputs[n])
  }

  /** Exactly three failures close the dialog. */
  predicate FailsThrice(s: State) {
    s.active.Some? && s.active.value.closing ==> s.active.value.failures == MAX_FAILURES
  }

  /** Then every completion is of a live session. */
  lemma PlausibleIsLive(s: State, i: Input)
    requires Disciplined(s) && Plausible(s, i)
    ensures !BreaksOn(s, i) && !RogueOn(s, i)
    ensures i.OnEvent? && Completes(s, i.event) ==> s.active.value.session
  {
  }

  /** A dialog that is closing fails once more, and stays. */
  predicate FailsAgain(s: State, i: Input) {
    && i.OnEvent? && !i.world.lock(0) && !i.world.lock(2)
    && Completes(s, i.event) && !i.event.conversation.gained && s.active.value.closing
  }

  lemma {:induction false} OpenFailsThrice(s: State, w: World)
    requires s.active.None?
    ensures FailsThrice(OpenNext(s, w))
    decreases |s.pending|
  {
    if s.pending != [] {
      var (r, id) := (s.pending[0], s.nextId + 1);
      var t := s.(pending := s.pending[1..], nextId := id);
      if !w.spawn(id) { OpenFailsThrice(Logged(t, Answered(r.id, Failed)), w); }
    }
  }

  lemma StartNextFailsThrice(s: State, w: World)
    ensures FailsThrice(StartNext(s, w)) <==> w.lock(2) || FailsThrice(s)
  {
    CancelAllSilent(s);
    if s.active.None? { OpenFailsThrice(s, w); }
  }

  lemma CompletedFailsThrice(s: State, gained: bool, w: World)
    requires Disciplined(s) && s.active.Some? && FailsThrice(s)
    ensures FailsThrice(OnCompleted(s, gained, w)) <==> gained || !s.active.value.closing
  {
  }

  lemma ReactFailsThrice(s: State, e: Event, w: World)
    requires Disciplined(s) && !Stale(s, e) && FailsThrice(s)
    ensures FailsThrice(React(s, e, w)) <==>
            !(Completes(s, e) && !e.conversation.gained && s.active.value.closing)
  {
    CancelAllSilent(s);
    if e.Cancel? { CancelQuiet(s, e.cookie); }
    if Completes(s, e) { CompletedFailsThrice(s, e.conversation.gained, w); }
  }

  lemma StepFailsThrice(s: State, i: Input)
    requires Disciplined(s) && FailsThrice(s)
    ensures FailsThrice(Step(s, i)) <==> !FailsAgain(s, i)
  {
    match i
    case OnEvent(e, w) =>
      var r := Arrived(s, e);
      CheckedDisciplined(r, w);
      CancelAllSilent(r);
      var t := Checked(r, w);
      if !Stale(t, e) {
        ReactFailsThrice(t, e, w);
        StartNextFailsThrice(React(t, e, w), w);
      }
    case OnTick(w) =>
      CancelAllSilent(s);
      var t := Checked(s, w);
      StartNextFailsThrice(t, w);
      StartNextFailsThrice(Finish(t, Normal), w);
      StartNextFailsThrice(Finish(t, Cancelled), w);
  }

  /** No call of the run fails a dialog once more that is closing. */
  ghost predicate NoFurtherFailure(inputs: seq<Input>) {
    inputs == [] || var n := |inputs| - 1;
    NoFurtherFailure(inputs[..n]) && !FailsAgain(Run(INITIAL, inputs[..n]), inputs[n])
  }

  ghost predicate ThriceThroughout(inputs: seq<Input>) {
    FailsThrice(Run(INITIAL, inputs)) && (inputs == [] || ThriceThroughout(inputs[..|inputs| - 1]))
  }

  /** In every run that keeps the discipline, exactly three failures have closed every dialog that
      is closing, if and only if none fails once more. */
  lemma {:induction false} EveryRunThriceIff(inputs: seq<Input>)
    requires Unbroken(inputs)
    ensures ThriceThroughout(inputs) <==> NoFurtherFailure(inputs)
    decreases |inputs|
  {
    if inputs != [] {
      var n := |inputs| - 1;
      EveryRunThriceIff(inputs[..n]);
      if ThriceThroughout(inputs[..n]) {
        UnbrokenDisciplined(inputs[..n]);
        StepFailsThrice(Run(INITIAL, inputs[..n]), inputs[n]);
      }
    }
  }

  /** So it is in particular if conversations complete only once. */
  lemma {:induction false} EveryRunFailsThrice(inputs: seq<Input>)
    requires PlausibleRun(inputs)
    ensures Unbroken(inputs) && Disciplined(Run(INITIAL, inputs)) && FailsThrice(Run(INITIAL, inputs))
    decreases |inputs|
  {
    if inputs != [] {
      var n := |inputs| - 1;
      var s := Run(INITIAL, inputs[..n]);
      EveryRunFailsThrice(inputs[..n]);
      PlausibleIsLive(s, inputs[n]);
      StepDisciplined(s, inputs[n]);
      StepFailsThrice(s, inputs[n]);
    }
  }

  // ---------------------------------------------------------------- and some that do not

  /** Nothing outside goes wrong. */
  ghost predicate Calm(w: World) {
    !w.lock(0) && !w.lock(1) && !w.lock(2) && w.spawn(1) && w.session
  }

  /** A request, and an identity chosen. */
  function Choosing(r: Request, uid: nat, w: World): seq<Input> {
    [OnEvent(Begin(r), w), OnEvent(Ui(1, Select(uid)), w)]
  }

  function Attempt(times: nat): nat {
    if times < MAX_FAILURES then times + 1 else MAX_FAILURES
  }

  /** The current conversation fails. */
  function Failure(times: nat, w: World): Input {
    OnEvent(Talk(1, Attempt(times), Completed(false)), w)
  }

  /** As many conversations fail, the third again and again. */
  function Failing(r: Request, uid: nat, w: World, times: nat): seq<Input> {
    if times == 0 then Choosing(r, uid, w) else Failing(r, uid, w, times - 1) + [Failure(times - 1, w)]
  }

  /** The dialog after that: in its next conversation, or closing. */
  predicate HasFailed(s: State, r: Request, uid: nat, w: World, times: nat) {
    s.active == Some(if times < MAX_FAILURES
                     then Active(1, r, true, Some(uid), times + 1, times, None, w.clock(2) + DIALOG_TIMEOUT, false)
                     else Active(1, r, false, Some(uid), 3, times, None, w.clock(0) + CLOSING_DELAY, true))
  }

  lemma FirstDialog(r: Request, uid: nat, w: World)
    requires uid in r.uids && Calm(w)
    ensures HasFailed(Run(INITIAL, Choosing(r, uid, w)), r, uid, w, 0)
  {
    var i := Choosing(r, uid, w);
    assert i == [] + [i[0]] + [i[1]];
    Appended([], i[0]);
    Appended([] + [i[0]], i[1]);
    var s := Handle(INITIAL, Begin(r), w);
    assert OnBegin(Arrived(INITIAL, Begin(r)), r, w).pending == [r];
    assert s.active == Some(Dialog(r, 1, w.clock(2)));
  }

  lemma NextFailure(s: State, r: Request, uid: nat, w: World, times: nat)
    requires uid in r.uids && Calm(w) && times < FAILURES_WRAP - 1 && HasFailed(s, r, uid, w, times)
    ensures HasFailed(Step(s, Failure(times, w)), r, uid, w, times + 1)
  {
  }

  /** The second and third conversation follow a failure, the third failure closes the dialog, and
      further ones keep it closing, up to the 255th. */
  lemma {:induction false} FailuresClose(r: Request, uid: nat, w: World, times: nat)
    requires uid in r.uids && Calm(w) && times < FAILURES_WRAP
    ensures HasFailed(Run(INITIAL, Failing(r, uid, w, times)), r, uid, w, times)
    decreases times
  {
    if times == 0 {
      FirstDialog(r, uid, w);
    } else {
      var before := Failing(r, uid, w, times - 1);
      FailuresClose(r, uid, w, times - 1);
      Appended(before, Failure(times - 1, w));
      NextFailure(Run(INITIAL, before), r, uid, w, times - 1);
    }
  }

  lemma Extended(inputs: seq<Input>, i: Input)
    ensures Unbroken(inputs + [i]) <==> Unbroken(inputs) && !BreaksOn(Run(INITIAL, inputs), i)
  {
    assert (inputs + [i])[..|inputs|] == inputs;
  }

  lemma ChoosingUnbroken(r: Request, uid: nat, w: World)
    ensures Unbroken(Choosing(r, uid, w))
  {
    var i := Choosing(r, uid, w);
    assert i == [] + [i[0]] + [i[1]];
    Extended([], i[0]);
    Extended([] + [i[0]], i[1]);
  }

  lemma FailureBreaksNothing(s: State, r: Request, uid: nat, w: World, times: nat)
    requires times < FAILURES_WRAP - 1 && HasFailed(s, r, uid, w, times)
    ensures !BreaksOn(s, Failure(times, w))
  {
  }

  lemma {:induction false} FailuresUnbroken(r: Request, uid: nat, w: World, times: nat)
    requires uid in r.uids && Calm(w) && times < FAILURES_WRAP
    ensures Unbroken(Failing(r, uid, w, times))
    decreases times
  {
    if times == 0 {
      ChoosingUnbroken(r, uid, w);
    } else {
      var before := Failing(r, uid, w, times - 1);
      FailuresUnbroken(r, uid, w, times - 1);
      FailuresClose(r, uid, w, times - 1);
      FailureBreaksNothing(Run(INITIAL, before), r, uid, w, times - 1);
      Extended(before, Failure(times - 1, w));
    }
  }

  /** Completing once more after the third failure, or a later one, with success, returns the
      request before its deadline and without a live session. */
  lemma SecondCompletionReturns(r: Request, uid: nat, w: World, times: nat)
    requires uid in r.uids && Calm(w) && MAX_FAILURES <= times < FAILURES_WRAP
    ensures var (s, i) := (Run(INITIAL, Failing(r, uid, w, times)), OnEvent(Talk(1, 3, Completed(true)), w));
            && s.active.Some? && s.active.value.closing && RogueOn(s, i) && !MayReturn(s, i)
            && Outcomes(Step(s, i).log) == Then(Outcomes(s.log), Answered(r.id, Normal))
  {
    FailuresClose(r, uid, w, times);
    FailuresUnbroken(r, uid, w, times);
    UnbrokenDisciplined(Failing(r, uid, w, times));
    HandleOutcomes(Run(INITIAL, Failing(r, uid, w, times)), Talk(1, 3, Completed(true)), w);
  }

  /** Failing once more after the 255th failure starts a fourth conversation in a dialog that is
      closing. */
  lemma CountWrapReopens(r: Request, uid: nat, w: World, times: nat)
    requires uid in r.uids && Calm(w) && times == 255
    ensures var t := Step(Run(INITIAL, Failing(r, uid, w, times)), Failure(times, w));
            && t.active.Some? && t.active.value.session && t.active.value.closing
            && t.active.value.attempt == 4 && t.active.value.failures == 0 && !Disciplined(t)
  {
    FailuresClose(r, uid, w, times);
  }
}
