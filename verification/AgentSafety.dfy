/** What every run of the agent keeps: requests are neither lost nor answered twice, and a
    cancellation that overtakes its request is honoured. */
module AgentSafety {
  import opened Basics
  import opened Wrappers
  import opened Agent

  // ---------------------------------------------------------------- requests are conserved

  /** How often request `x` is in the queue. */
  function Waiting(rs: seq<Request>, x: nat): nat {
    if rs == [] then 0 else One(rs[0].id == x) + Waiting(rs[1..], x)
  }

  /** How often request `x` is still owed an answer. */
  function Owed(s: State, x: nat): nat {
    Waiting(s.pending, x) + One(s.active.Some? && s.active.value.request.id == x)
  }

  /** How often request `x` was begun. */
  function Begun(log: Log, x: nat): nat {
    match log case Start => 0 case Then(before, e) => Begun(before, x) + One(e == Began(x))
  }

  /** How often request `x` was answered. */
  function Settled(log: Log, x: nat): nat {
    match log case Start => 0 case Then(before, e) => Settled(before, x) + One(e.Answered? && e.request == x)
  }

  lemma {:induction false} WaitingSnoc(rs: seq<Request>, r: Request, x: nat)
    ensures Waiting(rs + [r], x) == Waiting(rs, x) + One(r.id == x)
    decreases |rs|
  {
    if rs == [] {
      assert rs + [r] == [r];
    } else {
      assert (rs + [r])[1..] == rs[1..] + [r];
      WaitingSnoc(rs[1..], r, x);
    }
  }

  lemma {:induction false} WaitingWithout(rs: seq<Request>, i: nat, x: nat)
    requires i < |rs|
    ensures Waiting(rs, x) == Waiting(Without(rs, i), x) + One(rs[i].id == x)
    decreases |rs|
  {
    if i == 0 {
      assert Without(rs, 0) == rs[1..];
    } else {
      WaitingWithout(rs[1..], i - 1, x);
      assert Without(rs, i)[1..] == Without(rs[1..], i - 1);
    }
  }

  /** Going from `s` to `t` answers what it drops and drops what it answers. */
  ghost predicate Conserves(s: State, t: State, x: nat) {
    Begun(t.log, x) == Begun(s.log, x) && Settled(t.log, x) + Owed(t, x) == Settled(s.log, x) + Owed(s, x)
  }

  lemma FinishConserves(s: State, a: Answer, x: nat)
    ensures Conserves(s, Finish(s, a), x)
  {
  }

  lemma {:induction false} DropConserves(s: State, x: nat)
    ensures Conserves(s, DropPending(s), x) && DropPending(s).pending == [] && DropPending(s).active == s.active
    decreases |s.pending|
  {
    if s.pending != [] {
      DropConserves(Logged(s.(pending := s.pending[1..]), Answered(s.pending[0].id, Cancelled)), x);
    }
  }

  lemma CancelAllConserves(s: State, x: nat)
    ensures Conserves(s, CancelAll(s), x) && CancelAll(s).pending == [] && CancelAll(s).active.None?
  {
    FinishConserves(s, Cancelled, x);
    DropConserves(Finish(s, Cancelled), x);
  }

  lemma {:induction false} OpenConserves(s: State, w: World, x: nat)
    requires s.active.None?
    ensures var t := OpenNext(s, w);
            Conserves(s, t, x) && (t.active.None? ==> t.pending == []) && |t.pending| <= |s.pending|
    decreases |s.pending|
  {
    if s.pending != [] {
      var (r, id) := (s.pending[0], s.nextId + 1);
      var t := s.(pending := s.pending[1..], nextId := id);
      if w.spawn(id) {
      } else {
        var u := Logged(t, Answered(r.id, Failed));
        assert Conserves(s, u, x);
        OpenConserves(u, w, x);
      }
    }
  }

  /** Afterwards nothing waits behind nothing, however the lock was flipped. */
  lemma StartNextConserves(s: State, w: World, x: nat)
    ensures var t := StartNext(s, w);
            Conserves(s, t, x) && (t.active.None? ==> t.pending == []) && |t.pending| <= |s.pending|
  {
    CancelAllConserves(s, x);
    if s.active.None? { OpenConserves(s, w, x); }
  }

  lemma StartSessionConserves(s: State, uid: nat, w: World, x: nat)
    ensures Conserves(s, StartSession(s, uid, w), x) && StartSession(s, uid, w).pending == s.pending
  {
    if s.active.Some? && uid in s.active.value.request.uids {
      var o := s.active.value;
      var a := o.(session := w.session, prompt := None, attempt := o.attempt + 1, uid := Some(uid));
      FinishConserves(s.(active := Some(a)), Failed, x);
    }
  }

  lemma BeginConserves(s: State, r: Request, w: World, x: nat)
    requires |s.pending| <= MAX_PENDING
    ensures var t := OnBegin(s, r, w);
            && Begun(t.log, x) == Begun(s.log, x) && |t.pending| <= MAX_PENDING
            && Settled(t.log, x) + Owed(t, x) == Settled(s.log, x) + Owed(s, x) + One(r.id == x)
  {
    WaitingSnoc(s.pending, r, x);
  }

  lemma CancelConserves(s: State, c: Cookie, x: nat)
    ensures Conserves(s, OnCancel(s, c), x) && |OnCancel(s, c).pending| <= |s.pending|
  {
    FinishConserves(s, Cancelled, x);
    var t := if Holds(s, c) then Finish(s, Cancelled) else s;
    var i := Position(t.pending, c);
    if i < |t.pending| {
      WaitingWithout(t.pending, i, x);
    }
  }

  lemma UiConserves(s: State, input: UiInput, w: World, x: nat)
    requires s.active.Some?
    ensures Conserves(s, OnUi(s, input, w), x) && OnUi(s, input, w).pending == s.pending
  {
    var a := s.active.value;
    FinishConserves(s, Cancelled, x);
    if input.Select? { StartSessionConserves(s, input.uid, w, x); }
  }

  lemma CompletedConserves(s: State, gained: bool, w: World, x: nat)
    requires s.active.Some?
    ensures Conserves(s, OnCompleted(s, gained, w), x) && OnCompleted(s, gained, w).pending == s.pending
  {
    var t := Ending(s, gained);
    FinishConserves(t, Normal, x);
    if t.active.value.uid.Some? { StartSessionConserves(t, t.active.value.uid.value, w, x); }
  }

  /** After any call: the books balance, the queue is bounded, and a request waits only
      behind another one. */
  ghost predicate Balanced(s: State) {
    && (forall x :: Begun(s.log, x) == Settled(s.log, x) + Owed(s, x))
    && |s.pending| <= MAX_PENDING
    && (s.active.None? ==> s.pending == [])
  }

  lemma ReactConserves(s: State, e: Event, w: World, x: nat)
    requires !Stale(s, e) && |s.pending| <= MAX_PENDING
    ensures var t := React(s, e, w);
            && Begun(t.log, x) == Begun(s.log, x) && |t.pending| <= MAX_PENDING
            && Settled(t.log, x) + Owed(t, x) == Settled(s.log, x) + Owed(s, x) + One(e.Begin? && e.request.id == x)
  {
    match e
    case Begin(r) => BeginConserves(s, r, w, x);
    case Cancel(c) => CancelConserves(s, c, x);
    case UiClosed(_) => FinishConserves(s, Cancelled, x);
    case Ui(_, input) => UiConserves(s, input, w, x);
    case Talk(_, _, c) => if c.Completed? { CompletedConserves(s, c.gained, w, x); }
    case _ => CancelAllConserves(s, x);
  }

  lemma HandleBalanced(s: State, e: Event, w: World, x: nat)
    requires Balanced(s)
    ensures var t := Handle(s, e, w);
            && Begun(t.log, x) == Settled(t.log, x) + Owed(t, x)
            && |t.pending| <= MAX_PENDING && (t.active.None? ==> t.pending == [])
  {
    var r := Arrived(s, e);
    assert Begun(s.log, x) == Settled(s.log, x) + Owed(s, x);
    CancelAllConserves(r, x);
    var t := Checked(r, w);
    if !Stale(t, e) {
      ReactConserves(t, e, w, x);
      if e.Exit? { CancelAllConserves(t, x); } else { StartNextConserves(React(t, e, w), w, x); }
    }
  }

  lemma TickBalanced(s: State, w: World, x: nat)
    requires Balanced(s)
    ensures var t := Tick(s, w);
            && Begun(t.log, x) == Settled(t.log, x) + Owed(t, x)
            && |t.pending| <= MAX_PENDING && (t.active.None? ==> t.pending == [])
  {
    assert Begun(s.log, x) == Settled(s.log, x) + Owed(s, x);
    CancelAllConserves(s, x);
    var t := Checked(s, w);
    if t.active.Some? && t.active.value.closing && w.clock(0) >= t.active.value.deadline {
      FinishThenNext(t, Normal, w, x);
    } else if t.active.Some? && (w.exited || w.clock(1) >= t.active.value.deadline) {
      FinishThenNext(t, Cancelled, w, x);
    } else {
      StartNextConserves(t, w, x);
    }
  }

  lemma FinishThenNext(s: State, a: Answer, w: World, x: nat)
    requires |s.pending| <= MAX_PENDING
    ensures var t := StartNext(Finish(s, a), w);
            Conserves(s, t, x) && |t.pending| <= MAX_PENDING && (t.active.None? ==> t.pending == [])
  {
    FinishConserves(s, a, x);
    StartNextConserves(Finish(s, a), w, x);
  }

  lemma {:induction false} RunBalanced(s: State, inputs: seq<Input>)
    requires Balanced(s)
    ensures Balanced(Run(s, inputs))
    decreases |inputs|
  {
    if inputs != [] {
      RunBalanced(s, inputs[..|inputs| - 1]);
      StepKeepsBalance(Run(s, inputs[..|inputs| - 1]), inputs[|inputs| - 1]);
    }
  }

  /** Over every run: each request begun is answered, queued or active, exactly as often
      as it was begun, so one begun once is answered at most once; the queue holds at most
      eight; and nothing waits while no request is active. */
  lemma EveryRunBalanced(inputs: seq<Input>)
    ensures Balanced(Run(INITIAL, inputs))
  {
    RunBalanced(INITIAL, inputs);
  }

  lemma StepKeepsBalance(s: State, i: Input)
    requires Balanced(s)
    ensures Balanced(Step(s, i))
  {
    var t := Step(s, i);
    forall x ensures Begun(t.log, x) == Settled(t.log, x) + Owed(t, x) { StepBalanced(s, i, x); }
    StepBalanced(s, i, 0);
  }

  lemma StepBalanced(s: State, i: Input, x: nat)
    requires Balanced(s)
    ensures var t := Step(s, i);
            && Begun(t.log, x) == Settled(t.log, x) + Owed(t, x)
            && |t.pending| <= MAX_PENDING && (t.active.None? ==> t.pending == [])
  {
    match i
    case OnEvent(e, w) => HandleBalanced(s, e, w, x);
    case OnTick(w) => TickBalanced(s, w, x);
  }
}
