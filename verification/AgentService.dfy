/** What the agent does for those it serves. */
module AgentService {
  // Who is answered what and when, how dialogs open and in which order, and how a prompt gets from
  // the conversation to the dialog and its response back.

  import opened Basics
  import opened Wrappers
  import opened Agent
  import opened AgentDiscipline
  import Cookies = AgentCookies

  // ---------------------------------------------------------------- the log only grows

  /** Nothing of `base` is undone in `log`. */
  predicate From(base: Log, log: Log) {
    log == base || (log.Then? && From(base, log.before))
  }

  lemma {:induction false} FromFrom(a: Log, b: Log, c: Log)
    requires From(a, b) && From(b, c)
    ensures From(a, c)
    decreases c
  {
    if c != b { FromFrom(a, b, c.before); }
  }

  lemma {:induction false} OpenFrom(s: State, w: World)
    ensures From(s.log, OpenNext(s, w).log)
    decreases |s.pending|
  {
    if s.pending != [] {
      var (r, id) := (s.pending[0], s.nextId + 1);
      var t := s.(pending := s.pending[1..], nextId := id);
      if !w.spawn(id) {
        var u := Logged(t, Answered(r.id, Failed));
        OpenFrom(u, w);
        assert From(s.log, u.log);
        FromFrom(s.log, u.log, OpenNext(s, w).log);
      }
    }
  }

  // ---------------------------------------------------------------- everything is cancelled

  /** The requests that are still owed an answer, the active one first. */
  function Waiting(s: State): seq<nat> {
    (if s.active.Some? then [s.active.value.request.id] else []) + Ids(s.pending)
  }

  function Ids(rs: seq<Request>): (ids: seq<nat>)
    ensures |ids| == |rs|
  {
    if rs == [] then [] else [rs[0].id] + Ids(rs[1..])
  }

  /** The log with each of them answered so, one after the other. */
  function AllAnswered(log: Log, ids: seq<nat>, answer: Answer): Log
    decreases |ids|
  {
    if ids == [] then log
    else AllAnswered(Then(log, Answered(ids[0], answer)), ids[1..], answer)
  }

  lemma {:induction false} DropMeans(s: State)
    ensures DropPending(s) == s.(pending := [], log := AllAnswered(s.log, Ids(s.pending), Cancelled))
    decreases |s.pending|
  {
    if s.pending != [] {
      var t := Logged(s.(pending := s.pending[1..]), Answered(s.pending[0].id, Cancelled));
      DropMeans(t);
      assert Ids(s.pending)[1..] == Ids(s.pending[1..]);
    }
  }

  /** Cancelling everything answers the active request and then the queue, in order, as cancelled. */
  lemma CancelAllMeans(s: State)
    ensures CancelAll(s) == s.(active := None, pending := [], log := AllAnswered(s.log, Waiting(s), Cancelled))
  {
    DropMeans(Finish(s, Cancelled));
    if s.active.Some? {
      var ids := Waiting(s);
      assert ids[0] == s.active.value.request.id && ids[1..] == Ids(s.pending);
    } else {
      assert Waiting(s) == Ids(s.pending);
    }
  }

  lemma {:induction false} AllFrom(log: Log, ids: seq<nat>, answer: Answer)
    ensures From(log, AllAnswered(log, ids, answer))
    decreases |ids|
  {
    if ids != [] {
      var next := Then(log, Answered(ids[0], answer));
      AllFrom(next, ids[1..], answer);
      FromFrom(log, next, AllAnswered(log, ids, answer));
    }
  }

  lemma StartNextFrom(s: State, w: World)
    ensures From(s.log, StartNext(s, w).log)
  {
    CancelAllMeans(s);
    AllFrom(s.log, Waiting(s), Cancelled);
    OpenFrom(s, w);
  }

  lemma NothingLeft(s: State, w: World)
    requires s.active.None? && s.pending == []
    ensures CancelAll(s) == s && StartNext(s, w) == s
  {
    CancelAllMeans(s);
    assert Waiting(s) == [];
  }

  /** A locked session, an unavailable service, the end of the agent: everybody is answered as
      cancelled, in order, and nothing is left. */
  lemma LockClears(s: State, e: Event, w: World)
    requires e.Lock? || e.Unavailable? || e.Exit?
    ensures Handle(s, e, w) == s.(active := None, pending := [], log := AllAnswered(s.log, Waiting(s), Cancelled))
  {
    CancelAllMeans(s);
    NothingLeft(CancelAll(s), w);
  }

  /** So it is when any other call sees the lock, but for a request that has just come. */
  lemma SeenLockClears(s: State, i: Input)
    requires i.world.lock(0) && !(i.OnEvent? && i.event.Begin?)
    ensures var t := Step(s, i);
            && t.active == None && t.pending == []
            && From(AllAnswered(s.log, Waiting(s), Cancelled), t.log)
  {
    CancelAllMeans(s);
    var (t, w) := (CancelAll(s), i.world);
    NothingLeft(t, w);
    match i
    case OnTick(_) =>
    case OnEvent(e, _) =>
      if !Stale(t, e) {
        var u := React(t, e, w);
        assert u.active == None && u.pending == [] && From(t.log, u.log);
        NothingLeft(u, w);
      }
  }

  // ---------------------------------------------------------------- dialogs open in order

  /** The first `k` dialogs could not be started and the next one could, unless there is none. */
  ghost predicate OpensAfter(s: State, w: World, k: nat, t: State) {
    && k <= |s.pending| && (forall id: nat | s.nextId < id <= s.nextId + k :: !w.spawn(id))
    && var log := AllAnswered(s.log, Ids(s.pending)[..k], Failed);
       if k == |s.pending| then t == s.(pending := [], nextId := s.nextId + k, log := log)
       else
         var (id, r) := (s.nextId + k + 1, s.pending[k]);
         && w.spawn(id)
         && t == s.(pending := s.pending[k + 1..], nextId := id, log := Then(log, Opened(id, r.id, w.clock(2))),
                    active := Some(Active(id, r, false, None, 0, 0, None, w.clock(2) + 300_000, false)))
  }

  lemma FailsFirst(s: State, w: World, k: nat, t: State)
    requires s.pending != [] && !w.spawn(s.nextId + 1)
    requires OpensAfter(Logged(s.(pending := s.pending[1..], nextId := s.nextId + 1),
                               Answered(s.pending[0].id, Failed)), w, k, t)
    ensures OpensAfter(s, w, k + 1, t)
  {
    var ids := Ids(s.pending);
    assert ids[..k + 1][0] == s.pending[0].id && ids[..k + 1][1..] == Ids(s.pending[1..])[..k];
  }

  /** Dialogs are opened for the queued requests, first come first served: those whose dialog cannot
      be started are answered as failed, and the first whose dialog can has it, under a number of
      its own and for 300 seconds. */
  lemma {:induction false} OpensFirst(s: State, w: World) returns (k: nat)
    requires s.active.None?
    ensures OpensAfter(s, w, k, OpenNext(s, w))
    decreases |s.pending|
  {
    k := 0;
    if s.pending != [] && !w.spawn(s.nextId + 1) {
      var t := Logged(s.(pending := s.pending[1..], nextId := s.nextId + 1), Answered(s.pending[0].id, Failed));
      k := OpensFirst(t, w);
      FailsFirst(s, w, k, OpenNext(s, w));
      k := k + 1;
    } else {
      assert Ids(s.pending)[..0] == [];
    }
  }

  // ---------------------------------------------------------------- what the dialog is told and says

  /** The call does not see the lock. */
  predicate Unlocked(w: World) {
    !w.lock(0) && !w.lock(2)
  }

  /** A prompt of the current attempt is shown under the next number. */
  lemma PromptIsShown(s: State, w: World)
    requires s.active.Some? && Unlocked(w)
    ensures var (a, number) := (s.active.value, s.nextPrompt + 1);
            Handle(s, Talk(a.id, a.attempt, Prompt), w) ==
            s.(nextPrompt := number, active := Some(a.(prompt := Some(number))),
               log := Then(s.log, Asked(a.id, a.attempt, number)))
  {
  }

  /** A response goes to the live session if and only if it is to the prompt that is showing and the
      session takes it. */
  lemma ResponseIsPassed(s: State, number: nat, w: World)
    requires s.active.Some? && Unlocked(w)
    ensures var a := s.active.value;
            Handle(s, Ui(a.id, Response(number)), w) ==
            if a.session && a.prompt == Some(number) && w.respond
            then s.(active := Some(a.(prompt := None)), log := Then(s.log, Responded(a.id, a.attempt, number)))
            else s
  {
  }

  /** Choosing an offered identity before the first conversation, or when there is none, starts one
      for just that identity; if it cannot be started the request has failed. */
  lemma SelectionStarts(s: State, uid: nat, w: World)
    requires s.active.Some? && Unlocked(w)
    ensures var a := s.active.value;
            Handle(s, Ui(a.id, Select(uid)), w) ==
            if a.session || a.closing || uid !in a.request.uids then s
            else if w.session then
              s.(active := Some(a.(session := true, prompt := None, attempt := a.attempt + 1, uid := Some(uid))),
                 log := Then(s.log, Started(a.id, a.attempt + 1, uid)))
            else StartNext(s.(active := None, log := Then(s.log, Answered(a.request.id, Failed))), w)
  {
  }

  /** A conversation that succeeds returns its request. */
  lemma SuccessReturns(s: State, w: World)
    requires s.active.Some? && !w.lock(0)
    ensures var a := s.active.value;
            Handle(s, Talk(a.id, a.attempt, Completed(true)), w) ==
            StartNext(s.(active := None,
                         log := Then(Then(s.log, Ended(a.id, a.attempt)), Answered(a.request.id, Normal))), w)
  {
  }

  /** One that fails is followed by another for the same identity after the first and second failure,
      and by four seconds of closing after the third. */
  lemma FailureGoesOn(s: State, w: World)
    requires s.active.Some? && Unlocked(w) && s.active.value.failures < 255
    requires s.active.value.uid.Some? && s.active.value.uid.value in s.active.value.request.uids
    ensures var a := s.active.value;
            var (b, log) := (a.(prompt := None, failures := a.failures + 1), Then(s.log, Ended(a.id, a.attempt)));
            Handle(s, Talk(a.id, a.attempt, Completed(false)), w) ==
            if b.failures >= 3 then
              s.(active := Some(b.(session := false, closing := true, deadline := w.clock(0) + 4_000)),
                 log := Then(log, Closing(a.id, w.clock(0))))
            else if w.session then
              s.(active := Some(b.(session := true, attempt := a.attempt + 1)),
                 log := Then(log, Started(a.id, a.attempt + 1, a.uid.value)))
            else StartNext(s.(active := None, log := Then(log, Answered(a.request.id, Failed))), w)
  {
  }

  // ---------------------------------------------------------------- how a dialog ends

  /** The calls by which the active dialog is over: cancelled or closed by its user, cancelled by its
      caller, or, on the clock, gone by itself or past its time without closing. */
  predicate Over(a: Active, i: Input) {
    match i
    case OnEvent(e, _) => e == Ui(a.id, UiCancel) || e == UiClosed(a.id) || e == Cancel(a.request.cookie)
    case OnTick(w) =>
      !(a.closing && w.clock(0) >= a.deadline) && (w.exited || w.clock(1) >= a.deadline)
  }

  /** Then its request is answered as cancelled, and the next gets its turn. */
  lemma OverIsCancelled(s: State, i: Input)
    requires s.active.Some? && Over(s.active.value, i)
    ensures From(Then(s.log, Answered(s.active.value.request.id, Cancelled)), Step(s, i).log)
    ensures var t := Step(s, i); t.active.None? || t.active.value.id > s.nextId
  {
    var (first, w) := (Then(s.log, Answered(s.active.value.request.id, Cancelled)), i.world);
    CancelAllMeans(s);
    AllFrom(first, Ids(s.pending), Cancelled);
    assert Waiting(s)[1..] == Ids(s.pending);
    if w.lock(0) {
      SeenLockClears(s, i);
      FromFrom(first, CancelAll(s).log, Step(s, i).log);
    } else {
      OverUnlocked(s, i);
    }
  }

  lemma OverUnlocked(s: State, i: Input)
    requires s.active.Some? && Over(s.active.value, i) && !i.world.lock(0)
    ensures From(Then(s.log, Answered(s.active.value.request.id, Cancelled)), Step(s, i).log)
    ensures var t := Step(s, i); t.active.None? || t.active.value.id > s.nextId
  {
    var (first, w) := (Then(s.log, Answered(s.active.value.request.id, Cancelled)), i.world);
    var u := match i case OnEvent(e, _) => React(s, e, w) case OnTick(_) => Finish(s, Cancelled);
    assert u.active.None? && u.nextId == s.nextId && From(first, u.log);
    assert Step(s, i) == StartNext(u, w);
    StartNextFrom(u, w);
    FromFrom(first, u.log, Step(s, i).log);
    CancelAllMeans(u);
    var k := OpensFirst(u, w);
  }

  /** And past the deadline of a closing dialog it returns. */
  lemma ClosedReturns(s: State, w: World)
    requires s.active.Some? && s.active.value.closing && w.clock(0) >= s.active.value.deadline && !w.lock(0)
    ensures Tick(s, w) ==
            StartNext(s.(active := None, log := Then(s.log, Answered(s.active.value.request.id, Normal))), w)
  {
  }

  /** Otherwise the clock leaves it alone. */
  lemma ClockLeavesAlone(s: State, w: World)
    requires s.active.Some? && Unlocked(w) && w.clock(0) < s.active.value.deadline
    requires !w.exited && w.clock(1) < s.active.value.deadline
    ensures Tick(s, w) == s
  {
  }

  // ---------------------------------------------------------------- requests come and go

  /** What a request meets when it comes: refused as cancelled if its cancellation was remembered, if
      the session is locked or if eight are waiting; failed if its cookie is taken; and otherwise
      last in the queue. */
  lemma BeginDecides(s: State, r: Request, w: World)
    requires !w.lock(0)
    ensures var log := Then(s.log, Began(r.id));
            Handle(s, Begin(r), w) == StartNext(
              if r.cookie in s.cancelled then
                s.(cancelled := Without(s.cancelled, IndexOf(s.cancelled, r.cookie)),
                   log := Then(log, Answered(r.id, Cancelled)))
              else if w.lock(1) || |s.pending| >= 8 then s.(log := Then(log, Answered(r.id, Cancelled)))
              else if Holds(s, r.cookie) || Queued(s, r.cookie) then s.(log := Then(log, Answered(r.id, Failed)))
              else s.(log := log, pending := s.pending + [r]), w)
  {
  }

  /** What a cancellation does when cookies are distinct: the one request that has the cookie, active
      or queued, is answered as cancelled and nothing else changes; and if there is none the cookie
      is remembered, once, as the latest of at most 32. */
  lemma CancelDecides(s: State, c: Cookie, w: World)
    requires Cookies.Tidy(s)
    ensures var t := OnCancel(s, c);
            if Holds(s, c) then
              t == s.(active := None, log := Then(s.log, Answered(s.active.value.request.id, Cancelled)))
            else if Queued(s, c) then
              exists i :: 0 <= i < |s.pending| && s.pending[i].cookie == c
                          && t == s.(pending := Without(s.pending, i),
                                     log := Then(s.log, Answered(s.pending[i].id, Cancelled)))
            else if c in s.cancelled then t == s
            else
              var kept := if |s.cancelled| == 32 then s.cancelled[1..] else s.cancelled;
              t == s.(cancelled := kept + [c], log := Then(s.log, Remembered(c)))
  {
    var i := Position(s.pending, c);
    assert i < |s.pending| ==> Queued(s, c);
  }
}
