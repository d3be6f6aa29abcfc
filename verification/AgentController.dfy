/** The controller object of the authentication agent, field by field as it is updated on
    each event, proved to follow the transition system `Agent`. */
module AgentController {
  import opened Basics
  import opened Wrappers
  import A = Agent
  import Safety = AgentSafety
  import Cookies = AgentCookies
  import Discipline = AgentDiscipline
  import Runs = AgentRuns

  /** One turn of the event loop: what the channel had, and the outside at both calls. */
  datatype Turn = Turn(event: Option<A.Event>, world: A.World, later: A.World) {
    function Inputs(): seq<A.Input> {
      match event
      case None => [A.OnTick(later)]
      case Some(e) => if e.Exit? then [A.OnEvent(e, world)] else [A.OnEvent(e, world), A.OnTick(later)]
    }
  }

  class Controller {
    var pending: seq<A.Request>
    var active: Option<A.Active>
    var nextId: nat
    var nextPrompt: nat
    var cancelled: seq<A.Cookie>
    ghost var log: A.Log

    ghost function View(): A.State
      reads this
    {
      A.State(pending, active, nextId, nextPrompt, cancelled, log)
    }

    constructor ()
      ensures View() == A.INITIAL
    {
      pending, active, nextId, nextPrompt, cancelled, log := [], None, 0, 0, [], A.Start;
    }

    method Finish(answer: A.Answer)
      modifies this
      ensures View() == A.Finish(old(View()), answer)
    {
      match active {
        case None =>
        case Some(a) =>
          active := None;
          log := A.Then(log, A.Answered(a.request.id, answer));
      }
    }

    method CancelAll()
      modifies this
      ensures View() == A.CancelAll(old(View()))
    {
      Finish(A.Cancelled);
      while pending != []
        invariant A.DropPending(View()) == A.CancelAll(old(View()))
        decreases |pending|
      {
        ghost var done := pending[0].id;
        pending := pending[1..];
        log := A.Then(log, A.Answered(done, A.Cancelled));
      }
    }

    method StartNext(w: A.World)
      modifies this
      ensures View() == A.StartNext(old(View()), w)
    {
      if w.lock(2) {
        CancelAll();
        return;
      }
      if active.Some? { return; }
      while pending != []
        invariant active.None? && A.OpenNext(View(), w) == A.OpenNext(old(View()), w)
        decreases |pending|
      {
        var request := pending[0];
        pending := pending[1..];
        nextId := nextId + 1;
        if w.spawn(nextId) {
          active := Some(A.Dialog(request, nextId, w.clock(2)));
          log := A.Then(log, A.Opened(nextId, request.id, w.clock(2)));
          return;
        }
        log := A.Then(log, A.Answered(request.id, A.Failed));
      }
    }

    method StartSession(uid: nat, w: A.World)
      modifies this
      ensures View() == A.StartSession(old(View()), uid, w)
    {
      if active.None? || uid !in active.value.request.uids { return; }
      var a := active.value;
      active := Some(a.(session := false, prompt := None, attempt := a.attempt + 1, uid := Some(uid)));
      if w.session {
        active := Some(active.value.(session := true));
        log := A.Then(log, A.Started(a.id, a.attempt + 1, uid));
      } else {
        Finish(A.Failed);
      }
    }

    method Begin(request: A.Request, w: A.World)
      modifies this
      ensures View() == A.OnBegin(old(View()), request, w)
    {
      if request.cookie in cancelled {
        var index := A.IndexOf(cancelled, request.cookie);
        cancelled := Without(cancelled, index);
        log := A.Then(log, A.Answered(request.id, A.Cancelled));
      } else if w.lock(1) || |pending| >= A.MAX_PENDING {
        log := A.Then(log, A.Answered(request.id, A.Cancelled));
      } else {
        var twice := active.Some? && active.value.request.cookie == request.cookie;
        var index := A.Position(pending, request.cookie);
        if twice || index < |pending| {
          log := A.Then(log, A.Answered(request.id, A.Failed));
        } else {
          pending := pending + [request];
        }
      }
    }

    method Cancel(cookie: A.Cookie)
      modifies this
      ensures View() == A.OnCancel(old(View()), cookie)
    {
      var found := false;
      if active.Some? && active.value.request.cookie == cookie {
        found := true;
        Finish(A.Cancelled);
      }
      var index := A.Position(pending, cookie);
      if index < |pending| {
        found := true;
        ghost var done := pending[index].id;
        pending := Without(pending, index);
        log := A.Then(log, A.Answered(done, A.Cancelled));
      }
      if !found && cookie !in cancelled {
        if |cancelled| == A.MAX_REMEMBERED { cancelled := cancelled[1..]; }
        cancelled := cancelled + [cookie];
        log := A.Then(log, A.Remembered(cookie));
      }
    }

    method UserInput(input: A.UiInput, w: A.World)
      requires active.Some?
      modifies this
      ensures View() == A.OnUi(old(View()), input, w)
    {
      var a := active.value;
      match input {
        case UiCancel => Finish(A.Cancelled);
        case Select(uid) => if !a.session && !a.closing { StartSession(uid, w); }
        case Response(prompt) =>
          if a.prompt == Some(prompt) && a.session && w.respond {
            active := Some(a.(prompt := None));
            log := A.Then(log, A.Responded(a.id, a.attempt, prompt));
          }
        case Hello =>
      }
    }

    method Talk(conversation: A.Conversation, w: A.World)
      requires active.Some?
      modifies this
      ensures View() == A.OnTalk(old(View()), conversation, w)
    {
      match conversation {
        case Prompt =>
          nextPrompt := nextPrompt + 1;
          active := Some(active.value.(prompt := Some(nextPrompt)));
          log := A.Then(log, A.Asked(active.value.id, active.value.attempt, nextPrompt));
        case Info =>
        case Error =>
        case Completed(gained) =>
          var a := active.value.(session := false, prompt := None);
          log := A.Then(log, A.Ended(a.id, a.attempt));
          if gained {
            active := Some(a);
            Finish(A.Normal);
          } else {
            a := a.(failures := (a.failures + 1) % A.FAILURES_WRAP);
            active := Some(a);
            if a.failures >= A.MAX_FAILURES {
              active := Some(a.(closing := true, deadline := w.clock(0) + A.CLOSING_DELAY));
              log := A.Then(log, A.Closing(a.id, w.clock(0)));
            } else if a.uid.Some? {
              StartSession(a.uid.value, w);
            } else {
              log := A.Then(log, A.Panicked);
            }
          }
      }
    }

    method HandleEvent(event: A.Event, w: A.World) returns (leave: bool)
      modifies this
      ensures View() == A.Handle(old(View()), event, w) && (leave <==> event.Exit?)
    {
      leave := false;
      if event.Begin? { log := A.Then(log, A.Began(event.request.id)); }
      if w.lock(0) { CancelAll(); }
      match event {
        case Exit =>
          CancelAll();
          return true;
        case Lock => CancelAll();
        case Unavailable => CancelAll();
        case Begin(request) => Begin(request, w);
        case Cancel(cookie) => Cancel(cookie);
        case UiClosed(id) => if active.Some? && active.value.id == id { Finish(A.Cancelled); }
        case Ui(id, input) =>
          if active.None? || active.value.id != id { return; }
          UserInput(input, w);
        case Talk(id, attempt, conversation) =>
          if active.None? || active.value.id != id || active.value.attempt != attempt { return; }
          Talk(conversation, w);
      }
      StartNext(w);
    }

    method Tick(w: A.World)
      modifies this
      ensures View() == A.Tick(old(View()), w)
    {
      if w.lock(0) { CancelAll(); }
      if active.Some? && active.value.closing && w.clock(0) >= active.value.deadline {
        Finish(A.Normal);
      } else if active.Some? && (w.exited || w.clock(1) >= active.value.deadline) {
        Finish(A.Cancelled);
      }
      StartNext(w);
    }

    /** Handles what arrived, if anything, and lets the clock act unless told to leave. */
    method Take(turn: Turn, ghost before: seq<A.Input>) returns (leave: bool)
      requires View() == A.Run(A.INITIAL, before)
      modifies this
      ensures View() == A.Run(A.INITIAL, before + turn.Inputs()) && (leave <==> turn.event == Some(A.Exit))
    {
      leave := false;
      ghost var sofar := before;
      if turn.event.Some? {
        leave := HandleEvent(turn.event.value, turn.world);
        A.Appended(before, A.OnEvent(turn.event.value, turn.world));
        sofar := before + [A.OnEvent(turn.event.value, turn.world)];
      }
      if leave {
        assert turn.Inputs() == [A.OnEvent(turn.event.value, turn.world)];
        return;
      }
      Tick(turn.later);
      A.Appended(sofar, A.OnTick(turn.later));
      assert before + turn.Inputs() == sofar + [A.OnTick(turn.later)];
    }
  }

  function AllInputs(turns: seq<Turn>): seq<A.Input> {
    if turns == [] then [] else AllInputs(turns[..|turns| - 1]) + turns[|turns| - 1].Inputs()
  }

  lemma NextInputs(turns: seq<Turn>, k: nat)
    requires k < |turns|
    ensures AllInputs(turns[..k + 1]) == AllInputs(turns[..k]) + turns[k].Inputs()
  {
    assert turns[..k + 1][..k] == turns[..k];
  }

  /** The turns up to the first that makes the agent leave. */
  function Served(turns: seq<Turn>): (n: nat)
    ensures n <= |turns|
  {
    if turns == [] then 0 else if turns[0].event == Some(A.Exit) then 1 else 1 + Served(turns[1..])
  }

  lemma ServedFrom(turns: seq<Turn>, k: nat)
    requires k < |turns|
    ensures Served(turns[k..]) == if turns[k].event == Some(A.Exit) then 1 else 1 + Served(turns[k + 1..])
  {
    assert turns[k..][1..] == turns[k + 1..];
  }

  /** Serves the turns that come before the agent leaves, and the one that makes it leave. */
  method Loop(turns: seq<Turn>) returns (c: Controller)
    ensures c.View() == A.Run(A.INITIAL, AllInputs(turns[..Served(turns)]))
  {
    c := new Controller();
    var k := 0;
    ghost var inputs: seq<A.Input> := [];
    while k < |turns|
      invariant k <= |turns| && fresh(c) && Served(turns) == k + Served(turns[k..])
      invariant c.View() == A.Run(A.INITIAL, inputs) && inputs == AllInputs(turns[..k])
    {
      var leave := c.Take(turns[k], inputs);
      NextInputs(turns, k);
      ServedFrom(turns, k);
      inputs := inputs + turns[k].Inputs();
      k := k + 1;
      if leave {
        assert Served(turns) == k;
        return;
      }
    }
    assert Served(turns) == k;
  }

  /** At the end of such a service every request is accounted for, cookies and queue are in
      order, and so is the dialog if no call broke its discipline, which none did if no
      conversation completes twice. */
  method Serve(turns: seq<Turn>) returns (c: Controller)
    ensures c.View() == A.Run(A.INITIAL, AllInputs(turns[..Served(turns)]))
    ensures Safety.Balanced(c.View()) && Cookies.Tidy(c.View())
    ensures Runs.Unbroken(AllInputs(turns[..Served(turns)])) ==> Discipline.Disciplined(c.View())
    ensures Runs.PlausibleRun(AllInputs(turns[..Served(turns)])) ==>
              Discipline.Disciplined(c.View()) && Runs.FailsThrice(c.View())
  {
    c := Loop(turns);
    RunInOrder(AllInputs(turns[..Served(turns)]));
  }

  lemma RunInOrder(inputs: seq<A.Input>)
    ensures var s := A.Run(A.INITIAL, inputs);
            && Safety.Balanced(s) && Cookies.Tidy(s)
            && (Runs.Unbroken(inputs) ==> Discipline.Disciplined(s))
            && (Runs.PlausibleRun(inputs) ==> Discipline.Disciplined(s) && Runs.FailsThrice(s))
  {
    Safety.EveryRunBalanced(inputs);
    Cookies.EveryRunTidy(inputs);
    if Runs.Unbroken(inputs) { Runs.UnbrokenDisciplined(inputs); }
    if Runs.PlausibleRun(inputs) { Runs.EveryRunFailsThrice(inputs); }
  }
}
