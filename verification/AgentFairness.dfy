/** Numbers, times and turns of the authentication agent's dialogs, over every run. */
module AgentFairness {
  import opened Basics
  import opened Wrappers
  import opened Agent
  import opened AgentService

  // ---------------------------------------------------------------- what the next turn leaves alone

  /** The part of the log that is about prompts. */
  function Prompts(log: Log): Log {
    match log
    case Start => Start
    case Then(before, e) => if e.Asked? || e.Responded? then Then(Prompts(before), e) else Prompts(before)
  }

  /** When dialog `id` was opened, and when it began to close. */
  function OpenedAt(log: Log, id: nat): Option<nat> {
    match log
    case Start => None
    case Then(before, e) => if e.Opened? && e.dialog == id then Some(e.at) else OpenedAt(before, id)
  }

  function ClosingAt(log: Log, id: nat): Option<nat> {
    match log
    case Start => None
    case Then(before, e) => if e.Closing? && e.dialog == id then Some(e.at) else ClosingAt(before, id)
  }

  /** The requests in the order in which they came, and in which they got a dialog. */
  function Came(log: Log): seq<nat> {
    match log
    case Start => []
    case Then(before, e) => if e.Began? then Came(before) + [e.request] else Came(before)
  }

  function Served(log: Log): seq<nat> {
    match log
    case Start => []
    case Then(before, e) => if e.Opened? then Served(before) + [e.request] else Served(before)
  }

  lemma {:induction false} AnswersOnly(log: Log, ids: seq<nat>, answer: Answer, id: nat)
    ensures var after := AllAnswered(log, ids, answer);
            && Prompts(after) == Prompts(log) && Came(after) == Came(log) && Served(after) == Served(log)
            && OpenedAt(after, id) == OpenedAt(log, id) && ClosingAt(after, id) == ClosingAt(log, id)
    decreases |ids|
  {
    if ids != [] { AnswersOnly(Then(log, Answered(ids[0], answer)), ids[1..], answer, id); }
  }

  // ---------------------------------------------------------------- prompts are numbered

  function Highest(log: Log): nat {
    match log
    case Start => 0
    case Then(before, e) =>
      if (e.Asked? || e.Responded?) && e.prompt > Highest(before) then e.prompt else Highest(before)
  }

  /** Every prompt has a higher number than all before it. */
  ghost predicate Rising(log: Log) {
    match log case Start => true case Then(before, e) => Rising(before) && (e.Asked? ==> e.prompt > Highest(before))
  }

  ghost predicate Numbered(s: State) {
    && Rising(Prompts(s.log)) && Highest(Prompts(s.log)) <= s.nextPrompt
    && (s.active.Some? && s.active.value.prompt.Some? ==> s.active.value.prompt.value <= s.nextPrompt)
  }

  lemma StartNextNumbered(s: State, w: World)
    requires Numbered(s)
    ensures Numbered(StartNext(s, w))
  {
    CancelAllMeans(s);
    AnswersOnly(s.log, AgentService.Waiting(s), Cancelled, 0);
    if s.active.None? {
      var k := OpensFirst(s, w);
      AnswersOnly(s.log, Ids(s.pending)[..k], Failed, 0);
    }
  }

  lemma CancelAllNumbered(s: State)
    requires Numbered(s)
    ensures Numbered(CancelAll(s))
  {
    CancelAllMeans(s);
    AnswersOnly(s.log, AgentService.Waiting(s), Cancelled, 0);
  }

  /** Nothing about prompts is done, except perhaps that one is no longer shown. */
  ghost predicate Mute(s: State, t: State) {
    && Prompts(t.log) == Prompts(s.log) && t.nextPrompt == s.nextPrompt
    && (t.active.Some? && t.active.value.prompt.Some? ==>
          s.active.Some? && s.active.value.prompt == t.active.value.prompt)
  }

  lemma CompletedMute(s: State, gained: bool, w: World)
    requires s.active.Some?
    ensures Mute(s, OnCompleted(s, gained, w))
  {
  }

  lemma UiNumbered(s: State, input: UiInput, w: World)
    requires Numbered(s) && s.active.Some?
    ensures Numbered(OnUi(s, input, w))
  {
  }

  lemma CancelMute(s: State, c: Cookie)
    ensures Mute(s, OnCancel(s, c))
  {
  }

  lemma ReactNumbered(s: State, e: Event, w: World)
    requires Numbered(s) && !Stale(s, e)
    ensures Numbered(React(s, e, w))
  {
    match e
    case Ui(_, input) => UiNumbered(s, input, w);
    case Talk(_, _, c) => if c.Completed? { CompletedMute(s, c.gained, w); }
    case Cancel(c) => CancelMute(s, c);
    case Begin(r) => assert Mute(s, OnBegin(s, r, w));
    case UiClosed(_) =>
    case _ => CancelAllNumbered(s);
  }

  lemma HandleNumbered(s: State, e: Event, w: World)
    requires Numbered(s)
    ensures Numbered(Handle(s, e, w))
  {
    var r := Arrived(s, e);
    assert Mute(s, r);
    CancelAllNumbered(r);
    var t := Checked(r, w);
    if !Stale(t, e) {
      ReactNumbered(t, e, w);
      StartNextNumbered(React(t, e, w), w);
    }
  }

  lemma TickNumbered(s: State, w: World)
    requires Numbered(s)
    ensures Numbered(Tick(s, w))
  {
    CancelAllNumbered(s);
    var t := Checked(s, w);
    StartNextNumbered(t, w);
    StartNextNumbered(Finish(t, Normal), w);
    StartNextNumbered(Finish(t, Cancelled), w);
  }

  lemma StepNumbered(s: State, i: Input)
    requires Numbered(s)
    ensures Numbered(Step(s, i))
  {
    match i
    case OnEvent(e, w) => HandleNumbered(s, e, w);
    case OnTick(w) => TickNumbered(s, w);
  }

  lemma {:induction false} EveryRunNumbered(inputs: seq<Input>)
    ensures Numbered(Run(INITIAL, inputs))
    decreases |inputs|
  {
    if inputs != [] {
      var n := |inputs| - 1;
      EveryRunNumbered(inputs[..n]);
      StepNumbered(Run(INITIAL, inputs[..n]), inputs[n]);
    }
  }

  lemma {:induction false} HighestIsHighest(log: Log, e: Effect)
    requires log.Has(e) && (e.Asked? || e.Responded?)
    ensures e.prompt <= Highest(Prompts(log))
  {
    if log.last != e { HighestIsHighest(log.before, e); }
  }

  /** The number is above all that were shown or answered before. */
  ghost predicate Above(log: Log, number: nat) {
    forall e | log.Has(e) && (e.Asked? || e.Responded?) :: e.prompt < number
  }

  lemma NextIsAbove(s: State)
    requires Numbered(s)
    ensures Above(s.log, s.nextPrompt + 1)
  {
    forall e | s.log.Has(e) && (e.Asked? || e.Responded?) ensures e.prompt < s.nextPrompt + 1 {
      HighestIsHighest(s.log, e);
    }
  }

  lemma AskAndRespond(s: State, w: World, w': World)
    requires s.active.Some? && s.active.value.session && Unlocked(w) && Unlocked(w') && w'.respond
    ensures var (a, number) := (s.active.value, s.nextPrompt + 1);
            Handle(Handle(s, Talk(a.id, a.attempt, Prompt), w), Ui(a.id, Response(number)), w').log ==
            Then(Then(s.log, Asked(a.id, a.attempt, number)), Responded(a.id, a.attempt, number))
  {
    PromptIsShown(s, w);
    ResponseIsPassed(Handle(s, Talk(s.active.value.id, s.active.value.attempt, Prompt), w), s.nextPrompt + 1, w');
  }

  /** After any run with a live session: its prompt, and then the response to the number shown, log
      the prompt and exactly one response for that dialog, attempt and number; and the number is
      above all that were shown or answered before. */
  lemma PromptIsAnswered(inputs: seq<Input>, s: State, w: World, w': World)
    requires s == Run(INITIAL, inputs) && s.active.Some? && s.active.value.session
    requires Unlocked(w) && Unlocked(w') && w'.respond
    ensures var (a, number) := (s.active.value, s.nextPrompt + 1);
            var asked := inputs + [OnEvent(Talk(a.id, a.attempt, Prompt), w)];
            && Run(INITIAL, asked + [OnEvent(Ui(a.id, Response(number)), w')]).log ==
               Then(Then(s.log, Asked(a.id, a.attempt, number)), Responded(a.id, a.attempt, number))
            && Above(s.log, number)
  {
    var i := OnEvent(Talk(s.active.value.id, s.active.value.attempt, Prompt), w);
    Appended(inputs, i);
    Appended(inputs + [i], OnEvent(Ui(s.active.value.id, Response(s.nextPrompt + 1)), w'));
    AskAndRespond(s, w, w');
    EveryRunNumbered(inputs);
    NextIsAbove(s);
  }

  // ---------------------------------------------------------------- dialogs have their time

  /** The active dialog may stay for 300 seconds from its opening, and when it is closing for four
      from then. */
  ghost predicate Timed(s: State) {
    s.active.Some? ==>
      var a := s.active.value;
      if a.closing then
        exists at :: ClosingAt(s.log, a.id) == Some(at) && a.deadline == at + 4_000
      else
        exists at :: OpenedAt(s.log, a.id) == Some(at) && a.deadline == at + 300_000
  }

  /** Neither the dialog's times nor its deadline change. */
  ghost predicate Timeless(s: State, t: State) {
    t.active.Some? ==>
      && s.active.Some? && t.active.value.id == s.active.value.id
      && t.active.value.closing == s.active.value.closing && t.active.value.deadline == s.active.value.deadline
      && OpenedAt(t.log, t.active.value.id) == OpenedAt(s.log, t.active.value.id)
      && ClosingAt(t.log, t.active.value.id) == ClosingAt(s.log, t.active.value.id)
  }

  lemma TimelessTimed(s: State, t: State)
    requires Timed(s) && Timeless(s, t)
    ensures Timed(t)
  {
  }

  lemma StartNextTimed(s: State, w: World)
    requires Timed(s)
    ensures Timed(StartNext(s, w))
  {
    CancelAllMeans(s);
    if s.active.None? {
      var k := OpensFirst(s, w);
      var t := OpenNext(s, w);
      if t.active.Some? { assert OpenedAt(t.log, t.active.value.id) == Some(w.clock(2)); }
    }
  }

  lemma StartSessionTimeless(s: State, uid: nat, w: World)
    ensures Timeless(s, StartSession(s, uid, w))
  {
  }

  lemma CompletedTimed(s: State, gained: bool, w: World)
    requires Timed(s) && s.active.Some?
    ensures Timed(OnCompleted(s, gained, w))
  {
    var (t, u) := (Ending(s, gained), OnCompleted(s, gained, w));
    assert Timeless(s, t);
    TimelessTimed(s, t);
    var a := t.active.value;
    if !gained && a.failures < MAX_FAILURES && a.uid.Some? {
      StartSessionTimeless(t, a.uid.value, w);
      TimelessTimed(t, u);
    } else if !gained && a.failures >= MAX_FAILURES {
      assert ClosingAt(u.log, a.id) == Some(w.clock(0));
    } else {
      assert Timeless(t, u);
    }
  }

  lemma UiTimeless(s: State, input: UiInput, w: World)
    requires s.active.Some?
    ensures Timeless(s, OnUi(s, input, w))
  {
  }

  lemma CancelTimeless(s: State, c: Cookie)
    ensures Timeless(s, OnCancel(s, c))
  {
  }

  lemma ReactTimed(s: State, e: Event, w: World)
    requires Timed(s) && !Stale(s, e)
    ensures Timed(React(s, e, w))
  {
    var t := React(s, e, w);
    match e
    case Talk(_, _, c) =>
      if c.Completed? { CompletedTimed(s, c.gained, w); } else { assert Timeless(s, t); }
    case Ui(_, input) => UiTimeless(s, input, w);
    case Cancel(c) => CancelTimeless(s, c);
    case Begin(r) => assert Timeless(s, t);
    case UiClosed(_) => assert Timeless(s, t);
    case _ => CancelAllMeans(s);
  }

  lemma StepTimed(s: State, i: Input)
    requires Timed(s)
    ensures Timed(Step(s, i))
  {
    match i
    case OnEvent(e, w) =>
      var r := Arrived(s, e);
      assert Timeless(s, r);
      TimelessTimed(s, r);
      CancelAllMeans(r);
      var t := Checked(r, w);
      if !Stale(t, e) {
        ReactTimed(t, e, w);
        StartNextTimed(React(t, e, w), w);
      }
    case OnTick(w) =>
      CancelAllMeans(s);
      var t := Checked(s, w);
      StartNextTimed(t, w);
      StartNextTimed(Finish(t, Normal), w);
      StartNextTimed(Finish(t, Cancelled), w);
  }

  /** Over every run the active dialog's deadline is 300 seconds after it was opened, or four after it
      began to close. */
  lemma {:induction false} EveryRunTimed(inputs: seq<Input>)
    ensures Timed(Run(INITIAL, inputs))
    decreases |inputs|
  {
    if inputs != [] {
      var n := |inputs| - 1;
      EveryRunTimed(inputs[..n]);
      StepTimed(Run(INITIAL, inputs[..n]), inputs[n]);
    }
  }

  // ---------------------------------------------------------------- first come, first served

  /** `a` is `b` with some left out. */
  predicate Sub(a: seq<nat>, b: seq<nat>)
    decreases |b|
  {
    a == [] || (b != [] && (Sub(a, b[1..]) || (a[0] == b[0] && Sub(a[1..], b[1..]))))
  }

  lemma {:induction false} SubSelf(a: seq<nat>)
    ensures Sub(a, a)
    decreases |a|
  {
    if a != [] { SubSelf(a[1..]); }
  }

  lemma {:induction false} SubSub(a: seq<nat>, b: seq<nat>, c: seq<nat>)
    requires Sub(a, b) && Sub(b, c)
    ensures Sub(a, c)
    decreases |c|
  {
    if a != [] {
      if Sub(b, c[1..]) {
        SubSub(a, b, c[1..]);
      } else if Sub(a, b[1..]) {
        SubSub(a, b[1..], c[1..]);
      } else {
        SubSub(a[1..], b[1..], c[1..]);
      }
    }
  }

  lemma {:induction false} SubJoin(a: seq<nat>, b: seq<nat>, c: seq<nat>, d: seq<nat>)
    requires Sub(a, b) && Sub(c, d)
    ensures Sub(a + c, b + d)
    decreases |b|
  {
    if b == [] {
      assert a + c == c && b + d == d;
    } else {
      assert (b + d)[1..] == b[1..] + d;
      if Sub(a, b[1..]) {
        SubJoin(a, b[1..], c, d);
      } else {
        assert (a + c)[1..] == a[1..] + c;
        SubJoin(a[1..], b[1..], c, d);
      }
    }
  }

  /** Those served, and then those waiting, are those that came, in the same order. */
  ghost predicate InTurn(s: State) {
    Sub(Served(s.log) + Ids(s.pending), Came(s.log))
  }

  /** Only some of those waiting are gone. */
  ghost predicate Fewer(s: State, t: State) {
    Served(t.log) == Served(s.log) && Came(t.log) == Came(s.log) && Sub(Ids(t.pending), Ids(s.pending))
  }

  lemma FewerInTurn(s: State, t: State)
    requires InTurn(s) && Fewer(s, t)
    ensures InTurn(t)
  {
    SubSelf(Served(s.log));
    SubJoin(Served(s.log), Served(s.log), Ids(t.pending), Ids(s.pending));
    SubSub(Served(t.log) + Ids(t.pending), Served(s.log) + Ids(s.pending), Came(s.log));
  }

  /** Those after the first `k`. */
  lemma RestIsSub(rs: seq<Request>, k: nat)
    requires k <= |rs|
    ensures Sub(Ids(rs[k..]), Ids(rs))
  {
    assert rs == rs[..k] + rs[k..];
    IdsAdd(rs[..k], rs[k..]);
    SubSelf(Ids(rs[k..]));
    SubJoin([], Ids(rs[..k]), Ids(rs[k..]), Ids(rs[k..]));
    assert [] + Ids(rs[k..]) == Ids(rs[k..]);
  }

  lemma OpenInTurn(s: State, w: World)
    requires InTurn(s) && s.active.None?
    ensures InTurn(OpenNext(s, w))
  {
    var k := OpensFirst(s, w);
    var t := OpenNext(s, w);
    AnswersOnly(s.log, Ids(s.pending)[..k], Failed, 0);
    var rest := s.pending[k..];
    RestIsSub(s.pending, k);
    FewerInTurn(s, s.(pending := rest));
    if k < |s.pending| {
      assert rest == [s.pending[k]] + s.pending[k + 1..];
      assert Served(t.log) + Ids(t.pending) == Served(s.log) + Ids(rest);
    }
  }

  lemma CancelAllFewer(s: State)
    ensures Fewer(s, CancelAll(s))
  {
    CancelAllMeans(s);
    AnswersOnly(s.log, AgentService.Waiting(s), Cancelled, 0);
  }

  lemma StartNextInTurn(s: State, w: World)
    requires InTurn(s)
    ensures InTurn(StartNext(s, w))
  {
    CancelAllFewer(s);
    FewerInTurn(s, CancelAll(s));
    if s.active.None? { OpenInTurn(s, w); }
  }

  lemma {:induction false} IdsAdd(a: seq<Request>, b: seq<Request>)
    ensures Ids(a + b) == Ids(a) + Ids(b)
    decreases |a|
  {
    if a == [] {
      assert a + b == b;
    } else {
      assert (a + b)[1..] == a[1..] + b;
      IdsAdd(a[1..], b);
    }
  }

  lemma LessOne(a: seq<Request>, r: Request, c: seq<Request>)
    ensures Sub(Ids(a + c), Ids(a + ([r] + c)))
  {
    IdsAdd(a, c);
    IdsAdd(a, [r] + c);
    var (before, after, more) := (Ids(a), Ids(c), Ids([r] + c));
    assert ([r] + c)[1..] == c;
    SubSelf(before);
    SubSelf(after);
    assert more[1..] == after;
    SubJoin(before, before, after, more);
  }

  lemma Split<T>(s: seq<T>, i: nat)
    requires i < |s|
    ensures s == s[..i] + ([s[i]] + s[i + 1..])
  {
  }

  lemma IdsWithout(rs: seq<Request>, i: nat)
    requires i < |rs|
    ensures Sub(Ids(Without(rs, i)), Ids(rs))
  {
    Split(rs, i);
    LessOne(rs[..i], rs[i], rs[i + 1..]);
  }

  lemma CancelFewer(s: State, c: Cookie)
    ensures Fewer(s, OnCancel(s, c))
  {
    var i := Position(s.pending, c);
    SubSelf(Ids(s.pending));
    if i < |s.pending| { IdsWithout(s.pending, i); }
  }

  /** Request `r` has come just now, after `came`. */
  ghost predicate JustCame(s: State, came: seq<nat>, r: Request) {
    Came(s.log) == came + [r.id] && Sub(Served(s.log) + Ids(s.pending), came)
  }

  lemma FewerJustCame(s: State, t: State, came: seq<nat>, r: Request)
    requires JustCame(s, came, r) && Fewer(s, t)
    ensures JustCame(t, came, r)
  {
    SubSelf(Served(s.log));
    SubJoin(Served(s.log), Served(s.log), Ids(t.pending), Ids(s.pending));
    SubSub(Served(t.log) + Ids(t.pending), Served(s.log) + Ids(s.pending), came);
  }

  lemma ComeInTurn(s: State, came: seq<nat>, r: Request)
    requires JustCame(s, came, r)
    ensures InTurn(s)
  {
    var all := Served(s.log) + Ids(s.pending);
    SubJoin(all, came, [], [r.id]);
    assert all + [] == all;
  }

  /** If it queues it is the last in both. */
  lemma QueueInTurn(s: State, came: seq<nat>, r: Request)
    requires JustCame(s, came, r)
    ensures InTurn(s.(pending := s.pending + [r]))
  {
    var all := Served(s.log) + Ids(s.pending);
    SubSelf([r.id]);
    SubJoin(all, came, [r.id], [r.id]);
    IdsAdd(s.pending, [r]);
    assert Ids([r]) == [r.id];
    assert Served(s.log) + (Ids(s.pending) + [r.id]) == all + [r.id];
  }

  lemma BeginInTurn(s: State, came: seq<nat>, r: Request, w: World)
    requires JustCame(s, came, r)
    ensures InTurn(s) && InTurn(OnBegin(s, r, w))
  {
    ComeInTurn(s, came, r);
    QueueInTurn(s, came, r);
  }

  lemma CompletedFewer(s: State, gained: bool, w: World)
    requires s.active.Some?
    ensures Fewer(s, OnCompleted(s, gained, w))
  {
    SubSelf(Ids(s.pending));
  }

  lemma UiFewer(s: State, input: UiInput, w: World)
    requires s.active.Some?
    ensures Fewer(s, OnUi(s, input, w))
  {
    SubSelf(Ids(s.pending));
  }

  lemma ReactFewer(s: State, e: Event, w: World)
    requires !Stale(s, e) && !e.Begin?
    ensures Fewer(s, React(s, e, w))
  {
    SubSelf(Ids(s.pending));
    match e
    case Cancel(c) => CancelFewer(s, c);
    case Talk(_, _, c) => if c.Completed? { CompletedFewer(s, c.gained, w); }
    case Ui(_, input) => UiFewer(s, input, w);
    case UiClosed(_) =>
    case _ => CancelAllFewer(s);
  }

  lemma ArrivalInTurn(s: State, r: Request, w: World)
    requires InTurn(s)
    ensures var t := Checked(Logged(s, Began(r.id)), w); InTurn(t) && InTurn(OnBegin(t, r, w))
  {
    var t := Logged(s, Began(r.id));
    CancelAllFewer(t);
    FewerJustCame(t, CancelAll(t), Came(s.log), r);
    BeginInTurn(Checked(t, w), Came(s.log), r, w);
  }

  lemma HandleInTurn(s: State, e: Event, w: World)
    requires InTurn(s)
    ensures InTurn(Handle(s, e, w))
  {
    var t := Checked(Arrived(s, e), w);
    if e.Begin? {
      ArrivalInTurn(s, e.request, w);
    } else {
      CancelAllFewer(s);
      FewerInTurn(s, CancelAll(s));
      if !Stale(t, e) {
        ReactFewer(t, e, w);
        FewerInTurn(t, React(t, e, w));
      }
    }
    if !Stale(t, e) { StartNextInTurn(React(t, e, w), w); }
  }

  lemma FinishFewer(s: State, answer: Answer)
    ensures Fewer(s, Finish(s, answer))
  {
    SubSelf(Ids(s.pending));
  }

  lemma TickInTurn(s: State, w: World)
    requires InTurn(s)
    ensures InTurn(Tick(s, w))
  {
    CancelAllFewer(s);
    FewerInTurn(s, CancelAll(s));
    var t := Checked(s, w);
    FinishFewer(t, Normal);
    FinishFewer(t, Cancelled);
    FewerInTurn(t, Finish(t, Normal));
    FewerInTurn(t, Finish(t, Cancelled));
    StartNextInTurn(t, w);
    StartNextInTurn(Finish(t, Normal), w);
    StartNextInTurn(Finish(t, Cancelled), w);
  }

  lemma StepInTurn(s: State, i: Input)
    requires InTurn(s)
    ensures InTurn(Step(s, i))
  {
    match i
    case OnEvent(e, w) => HandleInTurn(s, e, w);
    case OnTick(w) => TickInTurn(s, w);
  }

  /** Over every run dialogs open in the order in which their requests came. */
  lemma {:induction false} EveryRunInTurn(inputs: seq<Input>)
    ensures InTurn(Run(INITIAL, inputs))
    decreases |inputs|
  {
    if inputs != [] {
      var n := |inputs| - 1;
      EveryRunInTurn(inputs[..n]);
      StepInTurn(Run(INITIAL, inputs[..n]), inputs[n]);
    }
  }
}
