/** Cookies name requests: no two live requests share one, and a cancellation that arrives
    before its request is remembered long enough to refuse it. */
module AgentCookies {
  import opened Basics
  import opened Wrappers
  import opened Agent
  import opened AgentSafety
  import opened Sorting

  ghost predicate LiveDistinct(s: State) {
    && (forall i, j | 0 <= i < j < |s.pending| :: s.pending[i].cookie != s.pending[j].cookie)
    && (s.active.Some? ==> !Queued(s, s.active.value.request.cookie))
  }

  /** The remembered cancellations: distinct, few, and of no live request. */
  ghost predicate MemoryOk(s: State) {
    && Distinct(s.cancelled) && |s.cancelled| <= MAX_REMEMBERED
    && forall c | c in s.cancelled :: !Holds(s, c) && !Queued(s, c)
  }

  ghost predicate Tidy(s: State) {
    LiveDistinct(s) && MemoryOk(s)
  }

  function Recorded(log: Log): nat {
    match log case Start => 0 case Then(before, e) => Recorded(before) + if e.Remembered? then 1 else 0
  }

  /** `t` has the memory of `s` and no request that `s` did not have. */
  ghost predicate Quieter(s: State, t: State) {
    && t.cancelled == s.cancelled && Recorded(t.log) == Recorded(s.log)
    && (forall c | Holds(t, c) || Queued(t, c) :: Holds(s, c) || Queued(s, c))
  }

  lemma FinishTidy(s: State, a: Answer)
    requires Tidy(s)
    ensures Tidy(Finish(s, a)) && Quieter(s, Finish(s, a)) && Finish(s, a).active.None?
    ensures Finish(s, a).pending == s.pending
  {
  }

  lemma {:induction false} DropQuiet(s: State)
    ensures var t := DropPending(s);
            && t.cancelled == s.cancelled && Recorded(t.log) == Recorded(s.log)
            && t.pending == [] && t.active == s.active && t.nextId == s.nextId
    decreases |s.pending|
  {
    if s.pending != [] {
      DropQuiet(Logged(s.(pending := s.pending[1..]), Answered(s.pending[0].id, Cancelled)));
    }
  }

  lemma CancelAllTidy(s: State)
    requires Tidy(s)
    ensures Tidy(CancelAll(s)) && Quieter(s, CancelAll(s)) && CancelAll(s).nextId == s.nextId
    ensures CancelAll(s).pending == [] && CancelAll(s).active.None?
  {
    DropQuiet(Finish(s, Cancelled));
  }

  lemma DequeueTidy(s: State)
    requires Tidy(s) && s.pending != [] && s.active.None?
    ensures var t := s.(pending := s.pending[1..]);
            Tidy(t) && Quieter(s, t) && !Queued(t, s.pending[0].cookie) && s.pending[0].cookie !in s.cancelled
  {
    var t := s.(pending := s.pending[1..]);
    assert forall i | 0 <= i < |t.pending| :: t.pending[i] == s.pending[i + 1];
    assert Queued(s, s.pending[0].cookie);
  }

  lemma {:induction false} OpenTidy(s: State, w: World)
    requires Tidy(s) && s.active.None?
    ensures Tidy(OpenNext(s, w)) && Quieter(s, OpenNext(s, w))
    decreases |s.pending|
  {
    if s.pending != [] {
      DequeueTidy(s);
      var (r, id) := (s.pending[0], s.nextId + 1);
      var t := s.(pending := s.pending[1..], nextId := id);
      assert Queued(s, r.cookie);
      if !w.spawn(id) { OpenTidy(Logged(t, Answered(r.id, Failed)), w); }
    }
  }

  lemma StartNextTidy(s: State, w: World)
    requires Tidy(s)
    ensures Tidy(StartNext(s, w)) && Quieter(s, StartNext(s, w))
  {
    CancelAllTidy(s);
    if s.active.None? { OpenTidy(s, w); }
  }

  lemma StartSessionTidy(s: State, uid: nat, w: World)
    requires Tidy(s)
    ensures Tidy(StartSession(s, uid, w)) && Quieter(s, StartSession(s, uid, w))
  {
  }

  lemma CompletedTidy(s: State, gained: bool, w: World)
    requires Tidy(s) && s.active.Some?
    ensures Tidy(OnCompleted(s, gained, w)) && Quieter(s, OnCompleted(s, gained, w))
  {
    var t := Ending(s, gained);
    assert Tidy(t) && Quieter(s, t);
    FinishTidy(t, Normal);
    CloseTidy(t, w.clock(0));
    if t.active.value.uid.Some? { StartSessionTidy(t, t.active.value.uid.value, w); }
  }

  lemma CloseTidy(s: State, now: nat)
    requires Tidy(s) && s.active.Some?
    ensures Tidy(Closes(s, now)) && Quieter(s, Closes(s, now))
  {
  }

  lemma UiTidy(s: State, input: UiInput, w: World)
    requires Tidy(s) && s.active.Some?
    ensures Tidy(OnUi(s, input, w)) && Quieter(s, OnUi(s, input, w))
  {
    FinishTidy(s, Cancelled);
    if input.Select? { StartSessionTidy(s, input.uid, w); }
  }

  // ---------------------------------------------------------------- the two events that use the memory

  lemma WithoutDistinct(cs: seq<Cookie>, i: nat)
    requires Distinct(cs) && i < |cs|
    ensures Distinct(Without(cs, i)) && forall c :: c in Without(cs, i) <==> c in cs && c != cs[i]
  {
    var ds := Without(cs, i);
    assert forall j | 0 <= j < |ds| :: ds[j] == cs[if j < i then j else j + 1];
    forall c | c in cs && c != cs[i] ensures c in ds {
      var j :| 0 <= j < |cs| && cs[j] == c;
      assert ds[if j < i then j else j - 1] == c;
    }
  }

  lemma BeginTidy(s: State, r: Request, w: World)
    requires Tidy(s)
    ensures Tidy(OnBegin(s, r, w)) && Recorded(OnBegin(s, r, w).log) == Recorded(s.log)
    ensures forall c | c in s.cancelled && c != r.cookie :: c in OnBegin(s, r, w).cancelled
    ensures r.cookie !in OnBegin(s, r, w).cancelled
  {
    var t := OnBegin(s, r, w);
    if r.cookie in s.cancelled {
      WithoutDistinct(s.cancelled, IndexOf(s.cancelled, r.cookie));
    } else if !(w.lock(1) || |s.pending| >= MAX_PENDING || Holds(s, r.cookie) || Queued(s, r.cookie)) {
      forall c | Queued(t, c) ensures Queued(s, c) || c == r.cookie {
        var i :| 0 <= i < |t.pending| && t.pending[i].cookie == c;
        assert i < |s.pending| ==> s.pending[i].cookie == c;
      }
    }
  }

  lemma RemoveQueuedTidy(s: State, i: nat)
    requires Tidy(s) && i < |s.pending|
    ensures var t := s.(pending := Without(s.pending, i));
            Tidy(t) && (forall c | Queued(t, c) :: Queued(s, c))
  {
    var t := s.(pending := Without(s.pending, i));
    assert forall j | 0 <= j < |t.pending| :: t.pending[j] == s.pending[if j < i then j else j + 1];
  }

  lemma RememberTidy(s: State, c: Cookie)
    requires Tidy(s) && !Holds(s, c) && !Queued(s, c)
    ensures Tidy(Remember(s, c)) && c in Remember(s, c).cancelled
  {
    if c !in s.cancelled {
      var t := Remember(s, c);
      var kept := if |s.cancelled| == MAX_REMEMBERED then s.cancelled[1..] else s.cancelled;
      assert Distinct(kept) && forall d | d in kept :: d in s.cancelled;
      assert t.cancelled == kept + [c];
      forall d | d in t.cancelled ensures !Holds(t, d) && !Queued(t, d) {
        assert d in kept || d == c;
      }
    }
  }

  lemma CancelTidy(s: State, c: Cookie)
    requires Tidy(s)
    ensures Tidy(OnCancel(s, c))
  {
    FinishTidy(s, Cancelled);
    var t := if Holds(s, c) then Finish(s, Cancelled) else s;
    var i := Position(t.pending, c);
    if i < |t.pending| { RemoveQueuedTidy(t, i); } else if !Holds(s, c) { RememberTidy(t, c); }
  }

  lemma StepTidy(s: State, i: Input)
    requires Tidy(s)
    ensures Tidy(Step(s, i))
  {
    match i
    case OnEvent(e, w) =>
      var r := Arrived(s, e);
      assert Tidy(r);
      CancelAllTidy(r);
      var t := Checked(r, w);
      if !Stale(t, e) {
        ReactTidy(t, e, w);
        if !e.Exit? { StartNextTidy(React(t, e, w), w); }
      }
    case OnTick(w) =>
      CancelAllTidy(s);
      var t := Checked(s, w);
      FinishTidy(t, Normal);
      FinishTidy(t, Cancelled);
      StartNextTidy(t, w);
      StartNextTidy(Finish(t, Normal), w);
      StartNextTidy(Finish(t, Cancelled), w);
  }

  lemma ReactTidy(s: State, e: Event, w: World)
    requires Tidy(s) && !Stale(s, e)
    ensures Tidy(React(s, e, w))
    ensures !e.Begin? && !e.Cancel? ==> Quieter(s, React(s, e, w))
  {
    match e
    case Begin(r) => BeginTidy(s, r, w);
    case Cancel(c) => CancelTidy(s, c);
    case UiClosed(_) => FinishTidy(s, Cancelled);
    case Ui(_, input) => UiTidy(s, input, w);
    case Talk(_, _, c) => if c.Completed? { CompletedTidy(s, c.gained, w); }
    case _ => CancelAllTidy(s);
  }

  /** Over every run: active and queued requests have pairwise distinct cookies, and the
      remembered cookies are distinct, at most 32, and none of a live request. */
  lemma {:induction false} EveryRunTidy(inputs: seq<Input>)
    ensures Tidy(Run(INITIAL, inputs))
    decreases |inputs|
  {
    if inputs != [] {
      EveryRunTidy(inputs[..|inputs| - 1]);
      StepTidy(Run(INITIAL, inputs[..|inputs| - 1]), inputs[|inputs| - 1]);
    }
  }

  // ---------------------------------------------------------------- a cancellation that comes first

  /** How many cancellations were remembered after that of `c`. */
  function Behind(cs: seq<Cookie>, c: Cookie): nat
    requires c in cs
  {
    |cs| - 1 - IndexOf(cs, c)
  }

  lemma BehindAt(cs: seq<Cookie>, c: Cookie, i: nat)
    requires Distinct(cs) && i < |cs| && cs[i] == c
    ensures Behind(cs, c) == |cs| - 1 - i
  {
  }

  /** `c` is still remembered in `t`, and no more were remembered after it than were
      recorded on the way from `s`. */
  ghost predicate StillKnown(s: State, t: State, c: Cookie)
    requires c in s.cancelled
  {
    && c in t.cancelled && Recorded(t.log) >= Recorded(s.log)
    && Behind(t.cancelled, c) <= Behind(s.cancelled, c) + Recorded(t.log) - Recorded(s.log)
  }

  lemma BeginKeeps(s: State, r: Request, w: World, c: Cookie)
    requires Tidy(s) && c in s.cancelled && r.cookie != c
    ensures StillKnown(s, OnBegin(s, r, w), c)
  {
    BeginTidy(s, r, w);
    if r.cookie in s.cancelled {
      var (k, i, t) := (IndexOf(s.cancelled, r.cookie), IndexOf(s.cancelled, c), OnBegin(s, r, w));
      BehindAt(t.cancelled, c, if i < k then i else i - 1);
    }
  }

  lemma CancelKeeps(s: State, d: Cookie, c: Cookie)
    requires Tidy(s) && c in s.cancelled
    requires Behind(s.cancelled, c) + Recorded(OnCancel(s, d).log) - Recorded(s.log) < MAX_REMEMBERED
    ensures StillKnown(s, OnCancel(s, d), c)
  {
    CancelTidy(s, d);
    var t := OnCancel(s, d);
    if t.cancelled != s.cancelled {
      var i := IndexOf(s.cancelled, c);
      var kept := if |s.cancelled| == MAX_REMEMBERED then s.cancelled[1..] else s.cancelled;
      var j := if |s.cancelled| == MAX_REMEMBERED then i - 1 else i;
      assert t.cancelled == kept + [d];
      assert t.cancelled[j] == c;
      BehindAt(t.cancelled, c, j);
    }
  }

  lemma TickQuiet(s: State, w: World)
    requires Tidy(s)
    ensures Tick(s, w).cancelled == s.cancelled && Recorded(Tick(s, w).log) == Recorded(s.log)
  {
    CancelAllTidy(s);
    var t := Checked(s, w);
    FinishTidy(t, Normal);
    FinishTidy(t, Cancelled);
    StartNextTidy(t, w);
    StartNextTidy(Finish(t, Normal), w);
    StartNextTidy(Finish(t, Cancelled), w);
  }

  /** What one call does to the memory of `c`, if it is not the request itself. */
  lemma StepKeeps(s: State, i: Input, c: Cookie)
    requires Tidy(s) && c in s.cancelled && !(i.OnEvent? && i.event.Begin? && i.event.request.cookie == c)
    requires Behind(s.cancelled, c) + Recorded(Step(s, i).log) - Recorded(s.log) < MAX_REMEMBERED
    ensures StillKnown(s, Step(s, i), c)
  {
    match i
    case OnTick(w) => TickQuiet(s, w);
    case OnEvent(e, w) =>
      var r := Arrived(s, e);
      assert Tidy(r) && Recorded(r.log) == Recorded(s.log);
      CancelAllTidy(r);
      var t := Checked(r, w);
      if !Stale(t, e) {
        var u := React(t, e, w);
        ReactTidy(t, e, w);
        if !e.Exit? { StartNextTidy(u, w); }
        if e.Begin? { BeginKeeps(t, e.request, w, c); }
        if e.Cancel? { CancelKeeps(t, e.cookie, c); }
      }
  }

  /** No request with cookie `c` arrives. */
  ghost predicate NoBegin(inputs: seq<Input>, c: Cookie) {
    forall k | 0 <= k < |inputs| ::
      !(inputs[k].OnEvent? && inputs[k].event.Begin? && inputs[k].event.request.cookie == c)
  }

  lemma {:induction false} RecordedGrows(s: State, inputs: seq<Input>)
    requires Tidy(s)
    ensures Tidy(Run(s, inputs)) && Recorded(s.log) <= Recorded(Run(s, inputs).log)
    decreases |inputs|
  {
    if inputs != [] {
      RecordedGrows(s, inputs[..|inputs| - 1]);
      StepRecords(Run(s, inputs[..|inputs| - 1]), inputs[|inputs| - 1]);
    }
  }

  lemma StepRecords(s: State, i: Input)
    requires Tidy(s)
    ensures Tidy(Step(s, i)) && Recorded(s.log) <= Recorded(Step(s, i).log)
  {
    StepTidy(s, i);
    match i
    case OnTick(w) => TickQuiet(s, w);
    case OnEvent(e, w) =>
      var r := Arrived(s, e);
      assert Tidy(r);
      CancelAllTidy(r);
      var t := Checked(r, w);
      if !Stale(t, e) {
        ReactTidy(t, e, w);
        if !e.Exit? { StartNextTidy(React(t, e, w), w); }
        if e.Begin? { BeginTidy(t, e.request, w); }
      }
  }

  /** A remembered cancellation survives every run in which fewer than 32 cancellations
      come to stand behind it. */
  lemma {:induction false} CancellationSurvives(s: State, inputs: seq<Input>, c: Cookie)
    requires Tidy(s) && c in s.cancelled && NoBegin(inputs, c)
    requires Behind(s.cancelled, c) + Recorded(Run(s, inputs).log) - Recorded(s.log) < MAX_REMEMBERED
    ensures StillKnown(s, Run(s, inputs), c) && Tidy(Run(s, inputs))
    decreases |inputs|
  {
    if inputs != [] {
      var (init, last) := (inputs[..|inputs| - 1], inputs[|inputs| - 1]);
      RecordedGrows(s, init);
      StepRecords(Run(s, init), last);
      CancellationSurvives(s, init, c);
      StepKeeps(Run(s, init), last, c);
    }
  }

  /** A request whose cookie is remembered is refused at once: it is answered, no dialog
      is opened for anyone, and nothing of it stays behind. */
  lemma BeginRefused(s: State, r: Request, w: World)
    requires Tidy(s) && r.cookie in s.cancelled && (s.active.None? ==> s.pending == [])
    ensures var t := Handle(s, Begin(r), w);
            && t.log.Has(Answered(r.id, Cancelled)) && t.nextId == s.nextId
            && r.cookie !in t.cancelled && !Holds(t, r.cookie) && !Queued(t, r.cookie)
  {
    var a := Arrived(s, Begin(r));
    assert Tidy(a);
    CancelAllTidy(a);
    var t := Checked(a, w);
    var u := OnBegin(t, r, w);
    BeginTidy(t, r, w);
    assert u.log.Has(Answered(r.id, Cancelled));
    StartNextTidy(u, w);
    CancelAllTidy(u);
    CancelAllHas(u, Answered(r.id, Cancelled));
  }

  lemma CancelAllHas(s: State, e: Effect)
    requires s.log.Has(e)
    ensures CancelAll(s).log.Has(e)
  {
    DropHas(Finish(s, Cancelled), e);
  }

  lemma {:induction false} DropHas(s: State, e: Effect)
    requires s.log.Has(e)
    ensures DropPending(s).log.Has(e)
    decreases |s.pending|
  {
    if s.pending != [] {
      DropHas(Logged(s.(pending := s.pending[1..]), Answered(s.pending[0].id, Cancelled)), e);
    }
  }

  /** Cancel first, begin later: after any run `before`, a cancellation recorded for `c`
      refuses the request that comes after any run `between` with fewer than 32 further
      recorded cancellations. */
  lemma CancelBeforeBeginIsHonoured(before: seq<Input>, w: World, between: seq<Input>, r: Request, w': World)
    requires var s := Run(INITIAL, before);
             var t := Handle(s, Cancel(r.cookie), w);
             && Recorded(t.log) > Recorded(s.log)
             && NoBegin(between, r.cookie)
             && Recorded(Run(t, between).log) - Recorded(t.log) < MAX_REMEMBERED
    ensures var u := Run(Handle(Run(INITIAL, before), Cancel(r.cookie), w), between);
            var v := Handle(u, Begin(r), w');
            v.log.Has(Answered(r.id, Cancelled)) && v.nextId == u.nextId
  {
    var s := Run(INITIAL, before);
    EveryRunTidy(before);
    CancelRecords(s, r.cookie, w);
    var t := Handle(s, Cancel(r.cookie), w);
    CancellationSurvives(t, between, r.cookie);
    EveryRunBalanced(before);
    StepKeepsBalance(s, OnEvent(Cancel(r.cookie), w));
    RunBalanced(t, between);
    BeginRefused(Run(t, between), r, w');
  }

  /** A cancellation that is recorded is the last one remembered. */
  lemma RecordedIsLast(s: State, c: Cookie)
    requires Tidy(s) && Recorded(OnCancel(s, c).log) > Recorded(s.log)
    ensures c in OnCancel(s, c).cancelled && Behind(OnCancel(s, c).cancelled, c) == 0
  {
    CancelTidy(s, c);
    var (u, kept) := (OnCancel(s, c), if |s.cancelled| == MAX_REMEMBERED then s.cancelled[1..] else s.cancelled);
    assert u.cancelled == kept + [c];
    BehindAt(u.cancelled, c, |kept|);
  }

  lemma CancelRecords(s: State, c: Cookie, w: World)
    requires Tidy(s) && Recorded(Handle(s, Cancel(c), w).log) > Recorded(s.log)
    ensures var t := Handle(s, Cancel(c), w); Tidy(t) && c in t.cancelled && Behind(t.cancelled, c) == 0
  {
    CancelAllTidy(s);
    var t := Checked(s, w);
    CancelTidy(t, c);
    StartNextTidy(OnCancel(t, c), w);
    RecordedIsLast(t, c);
  }
}
