/** How an authentication dialog may go. */
module AgentDiscipline {
  // At most three conversations, one after the other, each with an identity the request
  // offers, and no normal return without one that succeeded or the closing of a dialog that has
  // used all three; and what a conversation that completes out of turn does to this.

  import opened Wrappers
  import opened Agent

  /** The part of the log that is about conversations. */
  function Spoken(log: Log): Log {
    match log
    case Start => Start
    case Then(before, e) =>
      if e.Started? || e.Ended? || e.Responded? then Then(Spoken(before), e) else Spoken(before)
  }

  /** The part of the log that is about normal returns, and panics. */
  function Outcomes(log: Log): Log {
    match log
    case Start => Start
    case Then(before, e) =>
      if e == Panicked || (e.Answered? && e.answer.Normal?) then Then(Outcomes(before), e) else Outcomes(before)
  }

  lemma {:induction false} OutcomesHavePanic(log: Log)
    ensures Outcomes(log).Has(Panicked) <==> log.Has(Panicked)
  {
    if log.Then? { OutcomesHavePanic(log.before); }
  }

  /** The log speaks only of dialogs opened and prompts shown so far. */
  ghost predicate LogOk(s: State) {
    && (forall d: nat, n: nat, u: nat | Spoken(s.log).Has(Started(d, n, u)) :: d <= s.nextId && n >= 1)
    && (forall d: nat, n: nat | Spoken(s.log).Has(Ended(d, n)) :: d <= s.nextId)
    && (forall d: nat, n: nat, p: nat | Spoken(s.log).Has(Responded(d, n, p)) :: p <= s.nextPrompt)
  }

  ghost predicate DialogOk(a: Active, log: Log) {
    && (forall n: nat, u: nat | log.Has(Started(a.id, n, u)) :: n <= a.attempt)
    && (forall n: nat | log.Has(Ended(a.id, n)) :: n <= a.attempt)
    && (a.prompt.Some? ==> forall d: nat, n: nat :: !log.Has(Responded(d, n, a.prompt.value)))
    && if a.session then
         && a.attempt == a.failures + 1 && a.failures < MAX_FAILURES && !a.closing
         && a.uid.Some? && a.uid.value in a.request.uids
         && !log.Has(Ended(a.id, a.attempt))
       else if a.attempt == 0 then
         a.failures == 0 && !a.closing && a.uid.None?
       else
         && a.closing && MAX_FAILURES <= a.failures < FAILURES_WRAP && a.attempt == MAX_FAILURES
         && a.uid.Some? && a.uid.value in a.request.uids && log.Has(Ended(a.id, a.attempt))
  }

  /** After any call. */
  ghost predicate Disciplined(s: State) {
    && LogOk(s) && !Outcomes(s.log).Has(Panicked)
    && (s.active.Some? ==>
          && s.active.value.id == s.nextId
          && (s.active.value.prompt.Some? ==> s.active.value.prompt.value <= s.nextPrompt)
          && DialogOk(s.active.value, Spoken(s.log)))
  }

  /** Nothing was said and nobody got a normal return. */
  ghost predicate Silent(s: State, t: State) {
    Spoken(t.log) == Spoken(s.log) && Outcomes(t.log) == Outcomes(s.log) && t.nextPrompt == s.nextPrompt
  }

  lemma {:induction false} DropSilent(s: State)
    ensures var t := DropPending(s); Silent(s, t) && t.active == s.active && t.nextId == s.nextId
    decreases |s.pending|
  {
    if s.pending != [] {
      DropSilent(Logged(s.(pending := s.pending[1..]), Answered(s.pending[0].id, Cancelled)));
    }
  }

  lemma CancelAllSilent(s: State)
    ensures var t := CancelAll(s); Silent(s, t) && t.active.None? && t.nextId == s.nextId
  {
    DropSilent(Finish(s, Cancelled));
  }

  /** `t` is `s` with nothing said, and its dialog as it was or gone. */
  ghost predicate Quiet(s: State, t: State) {
    Silent(s, t) && t.nextId == s.nextId && (t.active == s.active || t.active.None?)
  }

  lemma QuietDisciplined(s: State, t: State)
    requires Disciplined(s) && Quiet(s, t)
    ensures Disciplined(t)
  {
  }

  lemma CheckedDisciplined(s: State, w: World)
    requires Disciplined(s)
    ensures Disciplined(Checked(s, w)) && Silent(s, Checked(s, w))
    ensures Checked(s, w).active == s.active || Checked(s, w).active.None?
  {
    CancelAllSilent(s);
    QuietDisciplined(s, Checked(s, w));
  }

  lemma {:induction false} OpenSilent(s: State, w: World)
    ensures Silent(s, OpenNext(s, w))
    decreases |s.pending|
  {
    if s.pending != [] {
      var (r, id) := (s.pending[0], s.nextId + 1);
      var t := s.(pending := s.pending[1..], nextId := id);
      if !w.spawn(id) { OpenSilent(Logged(t, Answered(r.id, Failed)), w); }
    }
  }

  lemma StartNextSilent(s: State, w: World)
    ensures Silent(s, StartNext(s, w))
  {
    CancelAllSilent(s);
    OpenSilent(s, w);
  }

  lemma {:induction false} OpenDisciplined(s: State, w: World)
    requires Disciplined(s) && s.active.None?
    ensures Disciplined(OpenNext(s, w))
    decreases |s.pending|
  {
    if s.pending != [] {
      var (r, id) := (s.pending[0], s.nextId + 1);
      var t := s.(pending := s.pending[1..], nextId := id);
      assert LogOk(t);
      if w.spawn(id) {
        assert DialogOk(Dialog(r, id, w.clock(2)), Spoken(s.log));
      } else {
        OpenDisciplined(Logged(t, Answered(r.id, Failed)), w);
      }
    }
  }

  lemma StartNextDisciplined(s: State, w: World)
    requires Disciplined(s)
    ensures Disciplined(StartNext(s, w))
  {
    CancelAllSilent(s);
    if w.lock(2) {
      QuietDisciplined(s, CancelAll(s));
    } else if s.active.None? {
      OpenDisciplined(s, w);
    }
  }

  // ---------------------------------------------------------------- sessions

  /** A dialog ready for its next conversation: the first, or one after a failure. */
  ghost predicate Between(a: Active, log: Log) {
    && !a.session && !a.closing && a.failures == a.attempt < MAX_FAILURES
    && (forall n: nat, u: nat | log.Has(Started(a.id, n, u)) :: n <= a.attempt)
    && (forall n: nat | log.Has(Ended(a.id, n)) :: n <= a.attempt)
    && (a.attempt == 0 ==> a.uid.None?)
  }

  lemma StartSessionDisciplined(s: State, uid: nat, w: World)
    requires LogOk(s) && !Outcomes(s.log).Has(Panicked) && s.active.Some? && s.active.value.id == s.nextId
    requires Between(s.active.value, Spoken(s.log))
    requires uid !in s.active.value.request.uids ==> Disciplined(s)
    ensures Disciplined(StartSession(s, uid, w)) && Outcomes(StartSession(s, uid, w).log) == Outcomes(s.log)
  {
    if uid in s.active.value.request.uids {
      var t := StartSession(s, uid, w);
      var a := s.active.value;
      if w.session {
        assert Spoken(t.log) == Then(Spoken(s.log), Started(a.id, a.attempt + 1, uid));
        assert DialogOk(t.active.value, Spoken(t.log));
      }
    }
  }

  /** One more normal return: that of the active request. */
  function Returned(s: State): Log
    requires s.active.Some?
  {
    Then(Outcomes(s.log), Answered(s.active.value.request.id, Normal))
  }

  lemma EndingKeeps(s: State, gained: bool)
    requires Disciplined(s) && s.active.Some?
    ensures var (t, a) := (Ending(s, gained), s.active.value);
            && LogOk(t) && Outcomes(t.log) == Outcomes(s.log)
            && Spoken(t.log) == Then(Spoken(s.log), Ended(a.id, a.attempt))
  {
  }

  /** The third failure, or one more after it. */
  lemma ClosingDisciplined(s: State, w: World)
    requires Disciplined(s) && s.active.Some? && MAX_FAILURES <= s.active.value.failures + 1 < FAILURES_WRAP
    ensures Disciplined(OnCompleted(s, false, w)) && Outcomes(OnCompleted(s, false, w).log) == Outcomes(s.log)
  {
    EndingKeeps(s, false);
    assert OnCompleted(s, false, w) == Closes(Ending(s, false), w.clock(0));
  }

  /** A failure before the first conversation finds no identity to try again with. */
  predicate Astray(a: Active, gained: bool) {
    a.attempt == 0 && !gained
  }

  /** One that makes the count of failures wrap to 0 starts a conversation once more. */
  predicate Wraps(a: Active, gained: bool) {
    a.failures == FAILURES_WRAP - 1 && !gained
  }

  lemma WrapReopens(s: State, w: World)
    requires Disciplined(s) && s.active.Some? && Wraps(s.active.value, false)
    ensures var (t, a) := (OnCompleted(s, false, w), s.active.value);
            && LogOk(t) && Outcomes(t.log) == Outcomes(s.log)
            && if w.session then
                 && t.active.Some? && t.active.value.session && t.active.value.closing
                 && Spoken(t.log) == Then(Then(Spoken(s.log), Ended(a.id, a.attempt)),
                                          Started(a.id, a.attempt + 1, a.uid.value))
               else t.active.None? && Spoken(t.log) == Then(Spoken(s.log), Ended(a.id, a.attempt))
  {
    EndingKeeps(s, false);
    var (t, uid) := (Ending(s, false), s.active.value.uid.value);
    assert OnCompleted(s, false, w) == StartSession(t, uid, w);
  }

  lemma CompletedDisciplined(s: State, gained: bool, w: World)
    requires Disciplined(s) && s.active.Some?
    ensures Disciplined(OnCompleted(s, gained, w)) <==>
            !Astray(s.active.value, gained) && !(Wraps(s.active.value, gained) && w.session)
    ensures Outcomes(OnCompleted(s, gained, w).log) ==
            if gained then Returned(s)
            else if Astray(s.active.value, gained) then Then(Outcomes(s.log), Panicked) else Outcomes(s.log)
  {
    EndingKeeps(s, gained);
    var (t, a) := (Ending(s, gained), s.active.value);
    if gained {
      assert OnCompleted(s, gained, w) == Finish(t, Normal);
    } else if Wraps(a, gained) {
      WrapReopens(s, w);
    } else if a.failures + 1 >= MAX_FAILURES {
      ClosingDisciplined(s, w);
    } else if a.session {
      assert OnCompleted(s, gained, w) == StartSession(t, a.uid.value, w);
      StartSessionDisciplined(t, a.uid.value, w);
    } else {
      assert OnCompleted(s, gained, w) == Logged(t, Panicked);
    }
  }

  lemma UiDisciplined(s: State, input: UiInput, w: World)
    requires Disciplined(s) && s.active.Some?
    ensures Disciplined(OnUi(s, input, w)) && Outcomes(OnUi(s, input, w).log) == Outcomes(s.log)
  {
    var a := s.active.value;
    match input
    case Select(uid) => if !a.session && !a.closing { StartSessionDisciplined(s, uid, w); }
    case Response(p) =>
      if a.prompt == Some(p) && a.session && w.respond {
        var t := OnUi(s, input, w);
        assert Spoken(t.log) == Then(Spoken(s.log), Responded(a.id, a.attempt, p));
      }
    case _ =>
  }

  lemma CancelQuiet(s: State, c: Cookie)
    ensures Quiet(s, OnCancel(s, c))
  {
  }

  lemma BeginQuiet(s: State, r: Request, w: World)
    ensures Quiet(s, OnBegin(s, r, w))
  {
  }

  lemma ClosedQuiet(s: State)
    ensures Quiet(s, Finish(s, Cancelled))
  {
  }

  lemma TalkDisciplined(s: State, c: Conversation, w: World)
    requires Disciplined(s) && s.active.Some? && !c.Completed?
    ensures Disciplined(OnTalk(s, c, w)) && Outcomes(OnTalk(s, c, w).log) == Outcomes(s.log)
  {
  }

  lemma ReactDisciplined(s: State, e: Event, w: World)
    requires Disciplined(s) && !Stale(s, e)
    ensures Disciplined(React(s, e, w)) <==> !Panics(s, e) && !Reopens(s, e, w)
    ensures Outcomes(React(s, e, w).log) ==
            if e.Talk? && e.conversation == Completed(true) then Returned(s)
            else if Panics(s, e) then Then(Outcomes(s.log), Panicked) else Outcomes(s.log)
  {
    var t := React(s, e, w);
    match e
    case Ui(_, input) => UiDisciplined(s, input, w);
    case Talk(_, _, c) =>
      if c.Completed? { CompletedDisciplined(s, c.gained, w); } else { TalkDisciplined(s, c, w); }
    case Cancel(c) =>
      CancelQuiet(s, c);
      QuietDisciplined(s, t);
    case Begin(r) =>
      BeginQuiet(s, r, w);
      QuietDisciplined(s, t);
    case UiClosed(_) =>
      ClosedQuiet(s);
      QuietDisciplined(s, t);
    case _ =>
      CancelAllSilent(s);
      QuietDisciplined(s, t);
  }

  // ---------------------------------------------------------------- one call

  /** A conversation completes, of the active dialog's current attempt. */
  predicate Completes(s: State, e: Event) {
    && s.active.Some? && e.Talk? && e.conversation.Completed?
    && e.id == s.active.value.id && e.attempt == s.active.value.attempt
  }

  /** It fails before the first one started: the agent panics. */
  predicate Panics(s: State, e: Event) {
    Completes(s, e) && Astray(s.active.value, e.conversation.gained)
  }

  predicate PanicsOn(s: State, i: Input) {
    i.OnEvent? && !i.world.lock(0) && Panics(s, i.event)
  }

  /** It is the 256th to fail: a closing dialog has a live session again. */
  predicate Reopens(s: State, e: Event, w: World) {
    Completes(s, e) && Wraps(s.active.value, e.conversation.gained) && w.session
  }

  predicate ReopensOn(s: State, i: Input) {
    i.OnEvent? && !i.world.lock(0) && !i.world.lock(2) && Reopens(s, i.event, i.world)
  }

  /** It is not live and succeeds, or fails before the first one. */
  predicate RogueOn(s: State, i: Input) {
    && i.OnEvent? && !i.world.lock(0) && Completes(s, i.event) && !s.active.value.session
    && (i.event.conversation.gained || i.event.attempt == 0)
  }

  /** The calls after which a request may return normally: a conversation of the current attempt
      that succeeded, or the clock passing the deadline of a dialog that has failed three
      times. */
  ghost predicate MayReturn(s: State, i: Input) {
    s.active.Some? && var a := s.active.value;
    match i
    case OnEvent(e, _) => e == Talk(a.id, a.attempt, Completed(true)) && a.session
    case OnTick(w) => a.closing && a.failures >= MAX_FAILURES && w.clock(0) >= a.deadline
  }

  /** From `s` to `t` nobody returned normally, or only the active request, when it may. */
  ghost predicate ReturnsOnly(s: State, i: Input, t: State) {
    Outcomes(t.log) == Outcomes(s.log) || (MayReturn(s, i) && Outcomes(t.log) == Returned(s))
  }

  function Length(log: Log): nat {
    if log.Start? then 0 else Length(log.before) + 1
  }

  lemma NotItself(log: Log, e: Effect)
    ensures Then(log, e) != log
  {
    assert Length(Then(log, e)) == Length(log) + 1;
  }

  /** Only the lock keeps a reopened dialog from staying. */
  lemma ReopenedNext(s: State, e: Event, w: World)
    requires Disciplined(s) && Reopens(s, e, w)
    ensures Disciplined(StartNext(React(s, e, w), w)) <==> w.lock(2)
  {
    WrapReopens(s, w);
    CancelAllSilent(React(s, e, w));
  }

  /** What an event does to the discipline and to the normal returns. */
  lemma HandleOutcomes(s: State, e: Event, w: World)
    requires Disciplined(s)
    ensures Disciplined(Handle(s, e, w)) <==> !PanicsOn(s, OnEvent(e, w)) && !ReopensOn(s, OnEvent(e, w))
    ensures Outcomes(Handle(s, e, w).log) ==
            if !w.lock(0) && Completes(s, e) && e.conversation.gained then Returned(s)
            else if PanicsOn(s, OnEvent(e, w)) then Then(Outcomes(s.log), Panicked) else Outcomes(s.log)
  {
    var r := Arrived(s, e);
    assert Disciplined(r) && Silent(s, r);
    CheckedDisciplined(r, w);
    CancelAllSilent(r);
    var t := Checked(r, w);
    if !Stale(t, e) {
      var u := React(t, e, w);
      ReactDisciplined(t, e, w);
      StartNextSilent(u, w);
      if Reopens(t, e, w) {
        ReopenedNext(t, e, w);
      } else if Disciplined(u) {
        StartNextDisciplined(u, w);
      }
    }
  }

  /** Whatever a conversation does: an event keeps the discipline if and only if it neither makes
      the agent panic nor reopens a dialog, and returns no request but the active one, when it
      may, if and only if it is not the completion of a conversation that is not live. */
  lemma HandleDisciplined(s: State, e: Event, w: World)
    requires Disciplined(s)
    ensures Disciplined(Handle(s, e, w)) <==> !PanicsOn(s, OnEvent(e, w)) && !ReopensOn(s, OnEvent(e, w))
    ensures ReturnsOnly(s, OnEvent(e, w), Handle(s, e, w)) <==> !RogueOn(s, OnEvent(e, w))
  {
    HandleOutcomes(s, e, w);
    NotItself(Outcomes(s.log), Panicked);
    if s.active.Some? { NotItself(Outcomes(s.log), Answered(s.active.value.request.id, Normal)); }
  }

  lemma FinishDisciplined(s: State, answer: Answer)
    requires Disciplined(s) && s.active.Some?
    ensures Disciplined(Finish(s, answer))
    ensures Outcomes(Finish(s, answer).log) == if answer.Normal? then Returned(s) else Outcomes(s.log)
  {
  }

  lemma TickDisciplined(s: State, w: World)
    requires Disciplined(s)
    ensures Disciplined(Tick(s, w)) && ReturnsOnly(s, OnTick(w), Tick(s, w))
  {
    CheckedDisciplined(s, w);
    var t := Checked(s, w);
    if t.active.Some? {
      FinishDisciplined(t, Normal);
      FinishDisciplined(t, Cancelled);
      NextDisciplined(Finish(t, Normal), w);
      NextDisciplined(Finish(t, Cancelled), w);
    }
    NextDisciplined(t, w);
  }

  lemma NextDisciplined(s: State, w: World)
    requires Disciplined(s)
    ensures Disciplined(StartNext(s, w)) && Silent(s, StartNext(s, w))
  {
    StartNextDisciplined(s, w);
    StartNextSilent(s, w);
  }

  /** A call that leaves the discipline. */
  predicate BreaksOn(s: State, i: Input) {
    PanicsOn(s, i) || ReopensOn(s, i)
  }

  lemma StepDisciplined(s: State, i: Input)
    requires Disciplined(s)
    ensures Disciplined(Step(s, i)) <==> !BreaksOn(s, i)
    ensures ReturnsOnly(s, i, Step(s, i)) <==> !RogueOn(s, i)
  {
    match i
    case OnEvent(e, w) => HandleDisciplined(s, e, w);
    case OnTick(w) => TickDisciplined(s, w);
  }

  // ---------------------------------------------------------------- what may be said

  /** The current conversation is over already, or has not begun. */
  ghost predicate Over(a: Active, log: Log) {
    a.attempt == 0 || log.Has(Ended(a.id, a.attempt))
  }

  /** What one call may add to the conversation log of the active dialog `a`: nothing, the
      end of the current attempt, the start of the next one for an offered identity, or a
      response to the prompt that is showing. */
  ghost predicate Says(a: Active, before: Log, after: Log) {
    || after == before
    || ((a.session || Over(a, before)) && after == Then(before, Ended(a.id, a.attempt)))
    || (a.session && a.prompt.Some? && after == Then(before, Responded(a.id, a.attempt, a.prompt.value)))
    || (exists u: nat :: u in a.request.uids && a.attempt == 0 && after == Then(before, Started(a.id, 1, u)))
    || (exists u: nat :: u in a.request.uids && a.session && a.attempt < MAX_FAILURES
                         && after == Then(Then(before, Ended(a.id, a.attempt)), Started(a.id, a.attempt + 1, u)))
  }

  lemma CompletedSays(s: State, gained: bool, w: World)
    requires Disciplined(s) && s.active.Some?
    ensures Says(s.active.value, Spoken(s.log), Spoken(OnCompleted(s, gained, w).log)) <==>
            !(Wraps(s.active.value, gained) && w.session)
  {
    EndingKeeps(s, gained);
    var (t, o) := (Ending(s, gained), s.active.value);
    if Wraps(o, gained) {
      WrapReopens(s, w);
      NotItself(Spoken(s.log), Ended(o.id, o.attempt));
      NotTwice(Spoken(s.log), Ended(o.id, o.attempt), Started(o.id, o.attempt + 1, o.uid.value));
    } else if o.session && !gained && o.failures + 1 < MAX_FAILURES && w.session {
      assert Spoken(OnCompleted(s, gained, w).log) ==
          Then(Spoken(t.log), Started(o.id, o.attempt + 1, o.uid.value));
    } else {
      assert Spoken(OnCompleted(s, gained, w).log) == Spoken(t.log);
    }
  }

  lemma NotTwice(log: Log, e: Effect, f: Effect)
    ensures Then(Then(log, e), f) != log
  {
    assert Length(Then(Then(log, e), f)) == Length(log) + 2;
  }

  lemma UiSays(s: State, input: UiInput, w: World)
    requires Disciplined(s) && s.active.Some?
    ensures Says(s.active.value, Spoken(s.log), Spoken(OnUi(s, input, w).log))
  {
    var (a, before, after) := (s.active.value, Spoken(s.log), Spoken(OnUi(s, input, w).log));
    if input.Select? && input.uid in a.request.uids && !a.session && !a.closing && w.session {
      assert after == Then(before, Started(a.id, 1, input.uid));
    } else if input.Response? && a.prompt == Some(input.prompt) && a.session && w.respond {
      assert after == Then(before, Responded(a.id, a.attempt, input.prompt));
    } else {
      assert after == before;
    }
  }

  ghost predicate SaysOnly(s: State, t: State) {
    Spoken(t.log) == Spoken(s.log) || (s.active.Some? && Says(s.active.value, Spoken(s.log), Spoken(t.log)))
  }

  lemma ReactSays(s: State, e: Event, w: World)
    requires Disciplined(s) && !Stale(s, e)
    ensures SaysOnly(s, React(s, e, w)) <==> !Reopens(s, e, w)
  {
    match e
    case Cancel(c) => CancelQuiet(s, c);
    case Ui(_, input) => UiSays(s, input, w);
    case Talk(_, _, c) => if c.Completed? { CompletedSays(s, c.gained, w); }
    case Begin(_) =>
    case UiClosed(_) =>
    case _ => CancelAllSilent(s);
  }

  /** In every call, whatever is said is said by the active dialog, within its rules, unless it is
      reopened. */
  lemma HandleSays(s: State, e: Event, w: World)
    requires Disciplined(s)
    ensures SaysOnly(s, Handle(s, e, w)) <==> w.lock(0) || !Reopens(s, e, w)
  {
    var r := Arrived(s, e);
    assert Disciplined(r) && Silent(s, r);
    CheckedDisciplined(r, w);
    CancelAllSilent(r);
    var t := Checked(r, w);
    if !Stale(t, e) {
      ReactSays(t, e, w);
      StartNextSilent(React(t, e, w), w);
    }
  }

  /** The event is of an earlier dialog or of another attempt. */
  predicate Outdated(s: State, e: Event) {
    match e
    case Ui(id, _) => id != s.nextId
    case Talk(id, attempt, _) => id != s.nextId || (s.active.Some? && attempt != s.active.value.attempt)
    case _ => false
  }

  /** Such events do nothing but the lock check. */
  lemma OldEventsDoNothing(s: State, e: Event, w: World)
    requires Disciplined(s) && Outdated(s, e)
    ensures Handle(s, e, w) == Checked(s, w)
  {
    CheckedDisciplined(s, w);
  }

  /** Once a prompt has been answered, no later call answers it again. */
  lemma PromptAnsweredOnce(s: State, e: Event, w: World, dialog: nat, attempt: nat, prompt: nat)
    requires Disciplined(s) && Spoken(s.log).Has(Responded(dialog, attempt, prompt))
    ensures var (before, after) := (Spoken(s.log), Spoken(Handle(s, e, w).log));
            after == before || (after.Then? && (after.last.Responded? ==> after.last.prompt != prompt))
  {
    HandleSays(s, e, w);
    if !w.lock(0) && Reopens(s, e, w) {
      WrapReopens(s, w);
      StartNextSilent(React(s, e, w), w);
    }
  }
}
