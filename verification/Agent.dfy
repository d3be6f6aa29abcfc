/** The authentication agent as a transition system over its event loop: one active
    request with its dialog, a bounded queue behind it, and cancellations remembered for
    requests that have not arrived yet. */
module Agent {
  import opened Basics
  import opened Wrappers

  const MAX_PENDING := 8
  const MAX_REMEMBERED := 32
  const MAX_FAILURES := 3
  const FAILURES_WRAP := 256
  const DIALOG_TIMEOUT := 300_000
  const CLOSING_DELAY := 4_000

  type Cookie = string

  /** `id` stands for the channel the caller waits on. */
  datatype Request = Request(id: nat, cookie: Cookie, uids: seq<nat>)

  /** How a request is answered. A normal return by itself authorizes nothing. */
  datatype Answer = Normal | Cancelled | Failed

  datatype Active = Active(id: nat, request: Request, session: bool, uid: Option<nat>, attempt: nat,
                           failures: nat, prompt: Option<nat>, deadline: nat, closing: bool)

  datatype Conversation = Prompt | Info | Error | Completed(gained: bool)

  datatype UiInput = UiCancel | Select(uid: nat) | Response(prompt: nat) | Hello

  datatype Event =
    | Begin(request: Request)
    | Cancel(cookie: Cookie)
    | Lock
    | Unavailable
    | Exit
    | Ui(id: nat, input: UiInput)
    | UiClosed(id: nat)
    | Talk(id: nat, attempt: nat, conversation: Conversation)

  /** What the agent does that others can see. */
  datatype Effect =
    | Began(request: nat)
    | Answered(request: nat, answer: Answer)
    | Opened(dialog: nat, request: nat, at: nat)
    | Started(dialog: nat, attempt: nat, uid: nat)
    | Ended(dialog: nat, attempt: nat)
    | Asked(dialog: nat, attempt: nat, prompt: nat)
    | Responded(dialog: nat, attempt: nat, prompt: nat)
    | Closing(dialog: nat, at: nat)
    | Remembered(cookie: Cookie)
    | Panicked

  /** Everything done so far, the latest last. */
  datatype Log = Start | Then(before: Log, last: Effect) {
    predicate Has(e: Effect) {
      Then? && (last == e || before.Has(e))
    }
  }

  /** Whatever one call gets from outside: each read of the lock flag, which another thread
      may flip at any time, and of the clock, whether a dialog or a conversation could be
      started, whether a response was accepted, and whether the dialog process is gone. */
  datatype World = World(lock: nat -> bool, clock: nat -> nat, spawn: nat -> bool, session: bool, respond: bool,
                         exited: bool)

  datatype State = State(pending: seq<Request>, active: Option<Active>, nextId: nat, nextPrompt: nat,
                         cancelled: seq<Cookie>, log: Log)

  const INITIAL := State([], None, 0, 0, [], Start)

  function Logged(s: State, e: Effect): State {
    s.(log := Then(s.log, e))
  }

  function Finish(s: State, answer: Answer): State {
    match s.active
    case None => s
    case Some(a) => Logged(s.(active := None), Answered(a.request.id, answer))
  }

  function DropPending(s: State): State
    decreases |s.pending|
  {
    if s.pending == [] then s
    else DropPending(Logged(s.(pending := s.pending[1..]), Answered(s.pending[0].id, Cancelled)))
  }

  function CancelAll(s: State): State {
    DropPending(Finish(s, Cancelled))
  }

  function Dialog(r: Request, id: nat, now: nat): Active {
    Active(id, r, false, None, 0, 0, None, now + DIALOG_TIMEOUT, false)
  }

  /** Opens a dialog for the first queued request for which that works. */
  function OpenNext(s: State, w: World): State
    decreases |s.pending|
  {
    if s.pending == [] then s
    else
      var (r, id) := (s.pending[0], s.nextId + 1);
      var t := s.(pending := s.pending[1..], nextId := id);
      if w.spawn(id) then Logged(t.(active := Some(Dialog(r, id, w.clock(2)))), Opened(id, r.id, w.clock(2)))
      else OpenNext(Logged(t, Answered(r.id, Failed)), w)
  }

  function StartNext(s: State, w: World): State {
    if w.lock(2) then CancelAll(s)
    else if s.active.Some? then s
    else OpenNext(s, w)
  }

  function StartSession(s: State, uid: nat, w: World): State {
    if s.active.None? || uid !in s.active.value.request.uids then s
    else
      var o := s.active.value;
      var a := o.(session := w.session, prompt := None, attempt := o.attempt + 1, uid := Some(uid));
      var t := s.(active := Some(a));
      if w.session then Logged(t, Started(a.id, a.attempt, uid)) else Finish(t, Failed)
  }

  predicate Queued(s: State, c: Cookie) {
    exists i :: 0 <= i < |s.pending| && s.pending[i].cookie == c
  }

  predicate Holds(s: State, c: Cookie) {
    s.active.Some? && s.active.value.request.cookie == c
  }

  /** Index of the first queued request with cookie `c`. */
  function Position(rs: seq<Request>, c: Cookie): (i: nat)
    ensures i <= |rs| && (i < |rs| ==> rs[i].cookie == c)
    ensures i == |rs| <==> forall j | 0 <= j < |rs| :: rs[j].cookie != c
  {
    if rs == [] then 0 else if rs[0].cookie == c then 0 else
    var i := Position(rs[1..], c);
    assert i == |rs| - 1 ==> forall j | 1 <= j < |rs| :: rs[j] == rs[1..][j - 1];
    i + 1
  }

  function IndexOf(cs: seq<Cookie>, c: Cookie): (i: nat)
    requires c in cs
    ensures i < |cs| && cs[i] == c && c !in cs[..i]
  {
    if cs[0] == c then 0 else 1 + IndexOf(cs[1..], c)
  }

  function OnBegin(s: State, r: Request, w: World): State {
    if r.cookie in s.cancelled then
      Logged(s.(cancelled := Without(s.cancelled, IndexOf(s.cancelled, r.cookie))), Answered(r.id, Cancelled))
    else if w.lock(1) || |s.pending| >= MAX_PENDING then Logged(s, Answered(r.id, Cancelled))
    else if Holds(s, r.cookie) || Queued(s, r.cookie) then Logged(s, Answered(r.id, Failed))
    else s.(pending := s.pending + [r])
  }

  function Remember(s: State, c: Cookie): State {
    if c in s.cancelled then s
    else
      var kept := if |s.cancelled| == MAX_REMEMBERED then s.cancelled[1..] else s.cancelled;
      Logged(s.(cancelled := kept + [c]), Remembered(c))
  }

  function OnCancel(s: State, c: Cookie): State {
    var t := if Holds(s, c) then Finish(s, Cancelled) else s;
    var i := Position(t.pending, c);
    var u := if i < |t.pending|
             then Logged(t.(pending := Without(t.pending, i)), Answered(t.pending[i].id, Cancelled)) else t;
    if Holds(s, c) || i < |t.pending| then u else Remember(u, c)
  }

  function OnUi(s: State, input: UiInput, w: World): State
    requires s.active.Some?
  {
    var a := s.active.value;
    match input
    case UiCancel => Finish(s, Cancelled)
    case Select(uid) => if !a.session && !a.closing then StartSession(s, uid, w) else s
    case Response(p) =>
      if a.prompt == Some(p) && a.session && w.respond
      then Logged(s.(active := Some(a.(prompt := None))), Responded(a.id, a.attempt, p))
      else s
    case Hello => s
  }

  /** The active dialog with its conversation over; failures are counted in 8 bits. */
  function Ending(s: State, gained: bool): State
    requires s.active.Some?
  {
    var o := s.active.value;
    var failures := if gained then o.failures else (o.failures + 1) % FAILURES_WRAP;
    var a := o.(session := false, prompt := None, failures := failures);
    Logged(s.(active := Some(a)), Ended(a.id, a.attempt))
  }

  /** Leaves the dialog up for a while to say that it has failed. */
  function Closes(s: State, now: nat): State
    requires s.active.Some?
  {
    var a := s.active.value;
    Logged(s.(active := Some(a.(closing := true, deadline := now + CLOSING_DELAY))), Closing(a.id, now))
  }

  function OnCompleted(s: State, gained: bool, w: World): State
    requires s.active.Some?
  {
    var t := Ending(s, gained);
    var a := t.active.value;
    if gained then Finish(t, Normal)
    else if a.failures >= MAX_FAILURES
    then Closes(t, w.clock(0))
    else match a.uid case Some(uid) => StartSession(t, uid, w) case None => Logged(t, Panicked)
  }

  /** Shows a prompt under a number of its own. */
  function Asks(s: State, number: nat): State
    requires s.active.Some?
  {
    var a := s.active.value;
    Logged(s.(nextPrompt := number, active := Some(a.(prompt := Some(number)))), Asked(a.id, a.attempt, number))
  }

  function OnTalk(s: State, c: Conversation, w: World): State
    requires s.active.Some?
  {
    match c
    case Prompt => Asks(s, s.nextPrompt + 1)
    case Info => s
    case Error => s
    case Completed(gained) => OnCompleted(s, gained, w)
  }

  /** The lock check that every call makes first. */
  function Checked(s: State, w: World): State {
    if w.lock(0) then CancelAll(s) else s
  }

  predicate Stale(s: State, e: Event) {
    match e
    case Ui(id, _) => s.active.None? || s.active.value.id != id
    case Talk(id, attempt, _) => s.active.None? || s.active.value.id != id || s.active.value.attempt != attempt
    case _ => false
  }

  /** What an event does to the state, before the next request gets its turn. */
  function React(s: State, e: Event, w: World): State
    requires !Stale(s, e)
  {
    match e
    case Begin(r) => OnBegin(s, r, w)
    case Cancel(c) => OnCancel(s, c)
    case UiClosed(id) => if s.active.Some? && s.active.value.id == id then Finish(s, Cancelled) else s
    case Ui(_, input) => OnUi(s, input, w)
    case Talk(_, _, c) => OnTalk(s, c, w)
    case _ => CancelAll(s)
  }

  function Arrived(s: State, e: Event): State {
    if e.Begin? then Logged(s, Began(e.request.id)) else s
  }

  function Handle(s: State, e: Event, w: World): State {
    var t := Checked(Arrived(s, e), w);
    if Stale(t, e) then t
    else if e.Exit? then React(t, e, w)
    else StartNext(React(t, e, w), w)
  }

  function Tick(s: State, w: World): State {
    var t := Checked(s, w);
    var u := match t.active
             case None => t
             case Some(a) =>
               if a.closing && w.clock(0) >= a.deadline then Finish(t, Normal)
               else if w.exited || w.clock(1) >= a.deadline then Finish(t, Cancelled)
               else t;
    StartNext(u, w)
  }

  datatype Input = OnEvent(event: Event, world: World) | OnTick(world: World)

  function Step(s: State, i: Input): State {
    match i case OnEvent(e, w) => Handle(s, e, w) case OnTick(w) => Tick(s, w)
  }

  /** The state after a whole run of the event loop. */
  function Run(s: State, inputs: seq<Input>): State {
    if inputs == [] then s else Step(Run(s, inputs[..|inputs| - 1]), inputs[|inputs| - 1])
  }

  lemma Appended(inputs: seq<Input>, i: Input)
    ensures Run(INITIAL, inputs + [i]) == Step(Run(INITIAL, inputs), i)
  {
    assert (inputs + [i])[..|inputs|] == inputs;
  }
}
