/**
 * The runner's turn loop. Every `await` ends a step, so between two steps of one activity any other
 * activity or command may run. An activity is one call of the command handler that is still suspended.
 */
module TurnLoop {
  import opened Text

  /** A message, steer or fork-and-steer command; blank when it carries neither text nor content. */
  datatype Request = Request(id: nat, blank: bool)

  datatype Exit =
    | Drained    // the loop found no waiting steer
    | Cancelled  // the loop consumed a blank steer
    | Idle       // the single turn of a steer or fork that arrived while idle

  /** Where an activity is suspended. */
  datatype Task =
    | Turn(request: Request)                  // inside the stream of a loop's turn
    | Ended                                   // that turn is over, the loop has not looked at the slots yet
    | Forking(request: Request)               // waiting for the forked session
    | Handled(request: Request, forked: bool) // the fork attempt has returned to the loop
    | Steering(request: Request)              // running a taken steer's context operations and snapshot
    | Cancelling                              // waiting for the interrupt of a blank steer
    | IdleOps(request: Request)               // the same as Steering, for a steer that arrived while idle
    | IdleTurn(request: Request)
    | IdleEnded
    | Done(exit: Exit)

  /** What has happened to requests so far, in order. */
  datatype Ledger = Ledger(
    received: seq<Request>, started: seq<Request>, cancelled: seq<Request>, overwritten: seq<Request>)

  datatype State = State(busy: bool, steer: Option<Request>, fork: Option<Request>, tasks: seq<Task>, ledger: Ledger)

  datatype Event =
    // commands from outside
    | Message(request: Request)
    | Steer(request: Request)
    | Fork(request: Request)
    // the stream of a turn yields an event, or ends or fails
    | Yields(task: nat, result: bool)
    | Closes(task: nat)
    // resumptions
    | AfterTurn(task: nat, live: bool)    // `live`: there is a session to interrupt
    | ForkSettles(task: nat, forked: bool)
    | AfterFork(task: nat, live: bool)
    | Prepared(task: nat)                 // context operations and snapshot are done
    | Interrupted(task: nat)
    | AfterIdleTurn(task: nat)

  const START := State(false, None, None, [], Ledger([], [], [], []))

  function OptSeq(o: Option<Request>): seq<Request> {
    if o.Some? then [o.value] else []
  }

  // ----- The source's handlers, segment by segment, on values -----

  function Open(s: State, t: Task): State {
    s.(busy := true, tasks := s.tasks + [t])
  }

  function Move(s: State, i: nat, t: Task): State
    requires i < |s.tasks|
  {
    s.(tasks := s.tasks[i := t])
  }

  function Finish(s: State, i: nat, exit: Exit): State
    requires i < |s.tasks|
  {
    Move(s, i, Done(exit)).(busy := false)
  }

  function Begin(s: State, r: Request): State {
    s.(ledger := s.ledger.(started := s.ledger.started + [r]))
  }

  function PutSteer(s: State, r: Request): State {
    s.(steer := Some(r), ledger := s.ledger.(overwritten := s.ledger.overwritten + OptSeq(s.steer)))
  }

  function PutFork(s: State, r: Request): State {
    s.(fork := Some(r), ledger := s.ledger.(overwritten := s.ledger.overwritten + OptSeq(s.fork)))
  }

  /** The loop from its look at the steer slot on. */
  function Tail(s: State, i: nat, live: bool): State
    requires i < |s.tasks|
  {
    if s.steer.None? then Finish(s, i, Drained)
    else
      var r := s.steer.value;
      var s1 := s.(steer := None);
      if !r.blank then Move(s1, i, Steering(r))
      else
        var s2 := s1.(ledger := s1.ledger.(cancelled := s1.ledger.cancelled + [r]));
        if live then Move(s2, i, Cancelling) else Finish(s2, i, Cancelled)
  }

  /** Whether the event can happen: an activity must be suspended where the event resumes it. */
  predicate Enabled(s: State, e: Event) {
    match e
    case Message(_) | Steer(_) | Fork(_) => true
    case Yields(i, _) => i < |s.tasks| && (s.tasks[i].Turn? || s.tasks[i].IdleTurn?)
    case Closes(i) => i < |s.tasks| && (s.tasks[i].Turn? || s.tasks[i].IdleTurn?)
    case AfterTurn(i, _) => i < |s.tasks| && s.tasks[i].Ended?
    case ForkSettles(i, _) => i < |s.tasks| && s.tasks[i].Forking?
    case AfterFork(i, _) => i < |s.tasks| && s.tasks[i].Handled?
    case Prepared(i) => i < |s.tasks| && (s.tasks[i].Steering? || s.tasks[i].IdleOps?)
    case Interrupted(i) => i < |s.tasks| && s.tasks[i].Cancelling?
    case AfterIdleTurn(i) => i < |s.tasks| && s.tasks[i].IdleEnded?
  }

  function StopStream(s: State, i: nat): State
    requires i < |s.tasks|
  {
    Move(s, i, if s.tasks[i].Turn? then Ended else IdleEnded)
  }

  function Receive(s: State, r: Request): State {
    s.(ledger := s.ledger.(received := s.ledger.received + [r]))
  }

  function Step(s: State, e: Event): State
    requires Enabled(s, e)
  {
    match e
    case Message(r) => Begin(Open(Receive(s, r), Turn(r)), r)
    case Steer(r) =>
      var s1 := Receive(s, r);
      if s.busy then PutSteer(s1, r)
      else if r.blank then s1.(ledger := s1.ledger.(cancelled := s1.ledger.cancelled + [r]))
      else Open(s1, IdleOps(r))
    case Fork(r) =>
      if s.busy then PutFork(Receive(s, r), r) else Begin(Open(Receive(s, r), IdleTurn(r)), r)
    case Yields(i, result) =>
      if result || s.steer.Some? || s.fork.Some? then StopStream(s, i) else s
    case Closes(i) => StopStream(s, i)
    case AfterTurn(i, live) =>
      if s.fork.Some? then Move(s.(fork := None), i, Forking(s.fork.value)) else Tail(s, i, live)
    case ForkSettles(i, forked) =>
      var r := s.tasks[i].request;
      Move(if forked then s else PutSteer(s, r), i, Handled(r, forked))
    case AfterFork(i, live) =>
      var t := s.tasks[i];
      if t.forked then Begin(Move(s, i, Turn(t.request)), t.request) else Tail(s, i, live)
    case Prepared(i) =>
      var t := s.tasks[i];
      Begin(Move(s, i, if t.Steering? then Turn(t.request) else IdleTurn(t.request)), t.request)
    case Interrupted(i) => Finish(s, i, Cancelled)
    case AfterIdleTurn(i) => Finish(s, i, Idle)
  }

  /** The state after a list of events; an event that is not enabled does not happen. */
  function Run(events: seq<Event>): State {
    if events == [] then START
    else
      var s := Run(events[..|events| - 1]);
      var e := events[|events| - 1];
      if Enabled(s, e) then Step(s, e) else s
  }

  // ----- The same segments, as the handlers that update the runner's fields -----

  class Runner {
    var isBusy: bool
    var pendingSteer: Option<Request>
    var pendingForkAndSteer: Option<Request>
    /** The suspended calls of the command handler. */
    var tasks: seq<Task>
    ghost var ledger: Ledger

    ghost function Now(): State
      reads this
    {
      State(isBusy, pendingSteer, pendingForkAndSteer, tasks, ledger)
    }

    constructor ()
      ensures Now() == START
    {
      isBusy, pendingSteer, pendingForkAndSteer, tasks := false, None, None, [];
      ledger := Ledger([], [], [], []);
    }

    method HandleMessage(r: Request)
      modifies this
      ensures Now() == Step(old(Now()), Message(r))
    {
      ledger := ledger.(received := ledger.received + [r]);
      isBusy := true;
      StartTurn(|tasks|, Turn(r));
    }

    method HandleSteer(r: Request)
      modifies this
      ensures Now() == Step(old(Now()), Steer(r))
    {
      ledger := ledger.(received := ledger.received + [r]);
      if isBusy {
        StoreSteer(r);
      } else {
        if r.blank {
          ledger := ledger.(cancelled := ledger.cancelled + [r]);
          return;
        }
        isBusy := true;
        tasks := tasks + [IdleOps(r)];
      }
    }

    method HandleForkAndSteer(r: Request)
      modifies this
      ensures Now() == Step(old(Now()), Fork(r))
    {
      ledger := ledger.(received := ledger.received + [r]);
      if isBusy {
        ledger := ledger.(overwritten := ledger.overwritten + OptSeq(pendingForkAndSteer));
        pendingForkAndSteer := Some(r);
      } else {
        isBusy := true;
        StartTurn(|tasks|, IdleTurn(r));
      }
    }

    /** The stream of a turn yields an event: a result ends the turn, and so does a waiting request. */
    method StreamEvent(i: nat, result: bool)
      requires Enabled(Now(), Yields(i, result))
      modifies this
      ensures Now() == Step(old(Now()), Yields(i, result))
    {
      if result {
        StreamOver(i);
      } else if pendingSteer.Some? {
        StreamOver(i);
      } else if pendingForkAndSteer.Some? {
        StreamOver(i);
      }
    }

    /** The stream ends or throws; the loop treats both alike. */
    method StreamOver(i: nat)
      requires Enabled(Now(), Closes(i))
      modifies this
      ensures Now() == Step(old(Now()), Closes(i))
    {
      tasks := tasks[i := if tasks[i].Turn? then Ended else IdleEnded];
    }

    /** The loop after a turn. */
    method ResumeLoop(i: nat, live: bool)
      requires Enabled(Now(), AfterTurn(i, live))
      modifies this
      ensures Now() == Step(old(Now()), AfterTurn(i, live))
    {
      if pendingForkAndSteer.Some? {
        var forkReq := pendingForkAndSteer.value;
        pendingForkAndSteer := None;
        tasks := tasks[i := Forking(forkReq)];
        return;
      }
      LookAtSteer(i, live);
    }

    /** Resuming a forked session succeeds, or fails and turns the request into a steer. */
    method SettleFork(i: nat, forked: bool)
      requires Enabled(Now(), ForkSettles(i, forked))
      modifies this
      ensures Now() == Step(old(Now()), ForkSettles(i, forked))
    {
      var forkReq := tasks[i].request;
      if !forked {
        StoreSteer(forkReq);
      }
      tasks := tasks[i := Handled(forkReq, forked)];
    }

    method ResumeFork(i: nat, live: bool)
      requires Enabled(Now(), AfterFork(i, live))
      modifies this
      ensures Now() == Step(old(Now()), AfterFork(i, live))
    {
      var forkReq, handled := tasks[i].request, tasks[i].forked;
      if handled {
        StartTurn(i, Turn(forkReq));
      } else {
        LookAtSteer(i, live);
      }
    }

    /** Context operations and snapshot of a steer are done: its turn starts. */
    method ResumeSteer(i: nat)
      requires Enabled(Now(), Prepared(i))
      modifies this
      ensures Now() == Step(old(Now()), Prepared(i))
    {
      var r := tasks[i].request;
      StartTurn(i, if tasks[i].Steering? then Turn(r) else IdleTurn(r));
    }

    method ResumeCancel(i: nat)
      requires Enabled(Now(), Interrupted(i))
      modifies this
      ensures Now() == Step(old(Now()), Interrupted(i))
    {
      tasks := tasks[i := Done(Cancelled)];
      isBusy := false;
    }

    method ResumeIdle(i: nat)
      requires Enabled(Now(), AfterIdleTurn(i))
      modifies this
      ensures Now() == Step(old(Now()), AfterIdleTurn(i))
    {
      tasks := tasks[i := Done(Idle)];
      isBusy := false;
    }

    /** A turn of activity `i` (a new one when `i` is their number) starts on its request. */
    method StartTurn(i: nat, t: Task)
      requires i <= |tasks| && (t.Turn? || t.IdleTurn?)
      modifies this`tasks, this`ledger
      ensures tasks == if i < |old(tasks)| then old(tasks)[i := t] else old(tasks) + [t]
      ensures ledger == old(ledger).(started := old(ledger).started + [t.request])
    {
      if i < |tasks| {
        tasks := tasks[i := t];
      } else {
        tasks := tasks + [t];
      }
      ledger := ledger.(started := ledger.started + [t.request]);
    }

    method StoreSteer(r: Request)
      modifies this`pendingSteer, this`ledger
      ensures pendingSteer == Some(r)
      ensures ledger == old(ledger).(overwritten := old(ledger).overwritten + OptSeq(old(pendingSteer)))
    {
      ledger := ledger.(overwritten := ledger.overwritten + OptSeq(pendingSteer));
      pendingSteer := Some(r);
    }

    method LookAtSteer(i: nat, live: bool)
      requires i < |tasks|
      modifies this
      ensures Now() == Tail(old(Now()), i, live)
    {
      if pendingSteer.None? {
        tasks := tasks[i := Done(Drained)];
        isBusy := false;
        return;
      }
      var steer := pendingSteer.value;
      pendingSteer := None;
      if steer.blank {
        ledger := ledger.(cancelled := ledger.cancelled + [steer]);
        if live {
          tasks := tasks[i := Cancelling];
        } else {
          tasks := tasks[i := Done(Cancelled)];
          isBusy := false;
        }
        return;
      }
      tasks := tasks[i := Steering(steer)];
    }
  }

  // ----- Every request has exactly one fate -----

  function Times(q: Request, r: Request): nat {
    if q == r then 1 else 0
  }

  /** How often `r` is in a list. */
  function Count(s: seq<Request>, r: Request): nat {
    if s == [] then 0 else Count(s[..|s| - 1], r) + Times(s[|s| - 1], r)
  }

  function CountOpt(o: Option<Request>, r: Request): nat {
    if o.Some? then Times(o.value, r) else 0
  }

  /** Whether an activity has taken `r` and not yet started it. */
  function Held(t: Task, r: Request): nat {
    match t
    case Forking(q) => Times(q, r)
    case Handled(q, forked) => if forked then Times(q, r) else 0
    case Steering(q) => Times(q, r)
    case IdleOps(q) => Times(q, r)
    case _ => 0
  }

  function AllHeld(tasks: seq<Task>, r: Request): nat {
    if tasks == [] then 0 else AllHeld(tasks[..|tasks| - 1], r) + Held(tasks[|tasks| - 1], r)
  }

  function Settled(l: Ledger, r: Request): nat {
    Count(l.started, r) + Count(l.cancelled, r) + Count(l.overwritten, r)
  }

  function Waiting(s: State, r: Request): nat {
    CountOpt(s.steer, r) + CountOpt(s.fork, r)
  }

  ghost predicate Conserved(s: State, r: Request) {
    Count(s.ledger.received, r) == Settled(s.ledger, r) + Waiting(s, r) + AllHeld(s.tasks, r)
  }

  lemma CountPush(s: seq<Request>, q: Request, r: Request)
    ensures Count(s + [q], r) == Count(s, r) + Times(q, r)
  {
    assert (s + [q])[..|s|] == s;
  }

  lemma CountOptSeq(s: seq<Request>, o: Option<Request>, r: Request)
    ensures Count(s + OptSeq(o), r) == Count(s, r) + CountOpt(o, r)
  {
    if o.Some? {
      CountPush(s, o.value, r);
    } else {
      assert s + OptSeq(o) == s;
    }
  }

  lemma AllHeldPush(tasks: seq<Task>, t: Task, r: Request)
    ensures AllHeld(tasks + [t], r) == AllHeld(tasks, r) + Held(t, r)
  {
    assert (tasks + [t])[..|tasks|] == tasks;
  }

  lemma {:induction false} AllHeldMove(tasks: seq<Task>, i: nat, t: Task, r: Request)
    requires i < |tasks|
    ensures AllHeld(tasks[i := t], r) + Held(tasks[i], r) == AllHeld(tasks, r) + Held(t, r)
  {
    var n := |tasks| - 1;
    var moved := tasks[i := t];
    if i == n {
      assert moved[..n] == tasks[..n];
    } else {
      AllHeldMove(tasks[..n], i, t, r);
      assert moved[..n] == tasks[..n][i := t];
    }
  }

  /** The loop's tail moves a waiting steer to an activity or to the cancelled ones. */
  lemma TailConserves(s: State, i: nat, live: bool, r: Request)
    requires i < |s.tasks| && Held(s.tasks[i], r) == 0 && Conserved(s, r)
    ensures Conserved(Tail(s, i, live), r)
  {
    hide Count, AllHeld;
    AllHeldMove(s.tasks, i, Tail(s, i, live).tasks[i], r);
    CountOptSeq(s.ledger.cancelled, s.steer, r);
  }

  lemma ArrivalConserves(s: State, e: Event, r: Request)
    requires e.Message? || e.Steer? || e.Fork?
    requires Conserved(s, r)
    ensures Conserved(Step(s, e), r)
  {
    hide Count, AllHeld;
    var q, l := e.request, s.ledger;
    CountPush(l.received, q, r);
    CountPush(l.started, q, r);
    CountPush(l.cancelled, q, r);
    CountOptSeq(l.overwritten, s.steer, r);
    CountOptSeq(l.overwritten, s.fork, r);
    AllHeldPush(s.tasks, Turn(q), r);
    AllHeldPush(s.tasks, IdleOps(q), r);
    AllHeldPush(s.tasks, IdleTurn(q), r);
  }

  lemma ResumptionConserves(s: State, e: Event, r: Request)
    requires !(e.Message? || e.Steer? || e.Fork?) && Enabled(s, e)
    requires Conserved(s, r)
    ensures Conserved(Step(s, e), r)
  {
    hide Count, AllHeld;
    var i, l := e.task, s.ledger;
    AllHeldMove(s.tasks, i, Step(s, e).tasks[i], r);
    match e {
      case AfterTurn(_, live) =>
        if s.fork.None? { TailConserves(s, i, live, r); }
      case ForkSettles(_, _) =>
        CountOptSeq(l.overwritten, s.steer, r);
      case AfterFork(_, live) =>
        if s.tasks[i].forked { CountPush(l.started, s.tasks[i].request, r); } else { TailConserves(s, i, live, r); }
      case Prepared(_) =>
        CountPush(l.started, s.tasks[i].request, r);
      case _ =>
    }
  }

  /** Whatever is interleaved, and however many loops run, no request is lost and none is doubled. */
  lemma {:induction false} Conservation(events: seq<Event>, r: Request)
    ensures Conserved(Run(events), r)
  {
    hide Step, Enabled;
    if events != [] {
      var front, e := events[..|events| - 1], events[|events| - 1];
      Conservation(front, r);
      if Enabled(Run(front), e) {
        if e.Message? || e.Steer? || e.Fork? {
          ArrivalConserves(Run(front), e, r);
        } else {
          ResumptionConserves(Run(front), e, r);
        }
      }
    }
  }

  /**
   * A request received once has exactly one fate: one turn was started on it, it was consumed as a
   * cancel, a later write to its slot replaced it, it waits in one slot, or one activity holds it.
   */
  lemma OneFate(events: seq<Event>, r: Request)
    requires Count(Run(events).ledger.received, r) == 1
    ensures var s := Run(events); var l := s.ledger;
            Count(l.started, r) + Count(l.cancelled, r) + Count(l.overwritten, r)
            + Waiting(s, r) + AllHeld(s.tasks, r) == 1
  {
    hide *;
    Conservation(events, r);
    OneFateByCount(Run(events), r);
  }

  lemma OneFateByCount(s: State, r: Request)
    requires Conserved(s, r)
    ensures var l := s.ledger;
            Count(l.started, r) + Count(l.cancelled, r) + Count(l.overwritten, r) + Waiting(s, r) + AllHeld(s.tasks, r)
            == Count(l.received, r)
  {
  }

  // ----- Finitely many commands are handled in finitely many steps -----

  /** How many more steps an activity can take by itself. */
  function Weight(t: Task): nat {
    match t
    case Turn(_) => 2
    case Ended => 1
    case Forking(_) => 5
    case Handled(_, forked) => if forked then 3 else 1
    case Steering(_) => 3
    case Cancelling => 1
    case IdleOps(_) => 3
    case IdleTurn(_) => 2
    case IdleEnded => 1
    case Done(_) => 0
  }

  function Weights(tasks: seq<Task>): nat {
    if tasks == [] then 0 else Weights(tasks[..|tasks| - 1]) + Weight(tasks[|tasks| - 1])
  }

  /** The steps the state can still take without a new command; a waiting steer is worth 3 and a waiting fork 5. */
  function Fuel(s: State): nat {
    Weights(s.tasks) + (if s.steer.Some? then 3 else 0) + (if s.fork.Some? then 5 else 0)
  }

  predicate Command(e: Event) {
    e.Message? || e.Steer? || e.Fork?
  }

  /** A step the runner takes by itself: all but commands and stream events that leave the turn running. */
  predicate OwnStep(s: State, e: Event) {
    Enabled(s, e) && !Command(e) && (e.Yields? ==> e.result || s.steer.Some? || s.fork.Some?)
  }

  function Commands(events: seq<Event>): nat {
    if events == [] then 0
    else Commands(events[..|events| - 1]) + (if Command(events[|events| - 1]) then 1 else 0)
  }

  function OwnSteps(events: seq<Event>): nat {
    if events == [] then 0
    else OwnSteps(events[..|events| - 1])
         + (if OwnStep(Run(events[..|events| - 1]), events[|events| - 1]) then 1 else 0)
  }

  lemma WeightsPush(tasks: seq<Task>, t: Task)
    ensures Weights(tasks + [t]) == Weights(tasks) + Weight(t)
  {
    assert (tasks + [t])[..|tasks|] == tasks;
  }

  lemma {:induction false} WeightsMove(tasks: seq<Task>, i: nat, t: Task)
    requires i < |tasks|
    ensures Weights(tasks[i := t]) + Weight(tasks[i]) == Weights(tasks) + Weight(t)
  {
    var n := |tasks| - 1;
    var moved := tasks[i := t];
    if i == n {
      assert moved[..n] == tasks[..n];
    } else {
      WeightsMove(tasks[..n], i, t);
      assert moved[..n] == tasks[..n][i := t];
    }
  }

  lemma TailBurns(s: State, i: nat, live: bool)
    requires i < |s.tasks| && Weight(s.tasks[i]) == 1
    ensures Fuel(Tail(s, i, live)) < Fuel(s)
  {
    hide Weights;
    WeightsMove(s.tasks, i, Tail(s, i, live).tasks[i]);
  }

  lemma CommandFuels(s: State, e: Event)
    requires Command(e)
    ensures Fuel(Step(s, e)) <= Fuel(s) + 5
  {
    hide Weights;
    WeightsPush(s.tasks, Turn(e.request));
    WeightsPush(s.tasks, IdleOps(e.request));
    WeightsPush(s.tasks, IdleTurn(e.request));
  }

  lemma OwnStepBurns(s: State, e: Event)
    requires OwnStep(s, e)
    ensures Fuel(Step(s, e)) < Fuel(s)
  {
    hide Weights;
    var i := e.task;
    if (e.AfterTurn? && s.fork.None?) || (e.AfterFork? && !s.tasks[i].forked) {
      TailBurns(s, i, e.live);
    } else {
      WeightsMove(s.tasks, i, Step(s, e).tasks[i]);
    }
  }

  /** What is left: an event that is not enabled, or a stream event that leaves the turn running. */
  lemma StreamGoesOn(s: State, e: Event)
    requires !Command(e) && !OwnStep(s, e)
    ensures Enabled(s, e) ==> Step(s, e) == s
    ensures Command(e) ==> Enabled(s, e)
  {
  }

  /** Every run takes at most five steps of its own per command, so finitely many commands end. */
  lemma {:induction false} Termination(events: seq<Event>)
    ensures OwnSteps(events) + Fuel(Run(events)) <= 5 * Commands(events)
  {
    hide Step;
    if events != [] {
      var front, e := events[..|events| - 1], events[|events| - 1];
      Termination(front);
      if Command(e) {
        CommandFuels(Run(front), e);
      } else if OwnStep(Run(front), e) {
        OwnStepBurns(Run(front), e);
      } else {
        StreamGoesOn(Run(front), e);
      }
    }
  }

  /** A run only rests when every activity has finished: whoever is suspended has a step to take. */
  lemma Progress(s: State, i: nat) returns (e: Event)
    requires i < |s.tasks| && !s.tasks[i].Done?
    ensures OwnStep(s, e) && Step(s, e).tasks[i] != s.tasks[i]
  {
    match s.tasks[i] {
      case Turn(_) => e := Closes(i);
      case Ended => e := AfterTurn(i, true);
      case Forking(_) => e := ForkSettles(i, true);
      case Handled(_, _) => e := AfterFork(i, true);
      case Steering(_) => e := Prepared(i);
      case Cancelling => e := Interrupted(i);
      case IdleOps(_) => e := Prepared(i);
      case IdleTurn(_) => e := Closes(i);
      case IdleEnded => e := AfterIdleTurn(i);
    }
  }

  // ----- What a loop leaves behind -----

  /** Messages arrive only while the runner is not busy. */
  ghost predicate Serial(events: seq<Event>) {
    forall k :: 0 <= k < |events| && events[k].Message? ==> !Run(events[..k]).busy
  }

  function Last(s: State): Task {
    if s.tasks == [] then Done(Drained) else s.tasks[|s.tasks| - 1]
  }

  /** At most one activity, the newest, is running; busy tells whether it is. */
  ghost predicate Solo(s: State) {
    && (forall i :: 0 <= i < |s.tasks| - 1 ==> s.tasks[i].Done?)
    && (s.busy <==> !Last(s).Done?)
    && (Last(s).Handled? && !Last(s).forked ==> s.steer.Some?)
    && (Last(s) == Done(Drained) ==> s.steer.None? && s.fork.None?)
  }

  lemma StepSolo(s: State, e: Event)
    requires Solo(s) && Enabled(s, e) && (e.Message? ==> !s.busy)
    ensures Solo(Step(s, e))
  {
  }

  /**
   * When messages arrive only while idle, one activity runs at a time, and an idle runner has a request
   * waiting only if its last activity consumed a cancel or ran the single turn of an idle command.
   */
  lemma {:induction false} SerialRun(events: seq<Event>)
    requires Serial(events)
    ensures var s := Run(events);
            && (forall i :: 0 <= i < |s.tasks| - 1 ==> s.tasks[i].Done?)
            && (s.busy <==> !Last(s).Done?)
            && (!s.busy && (s.steer.Some? || s.fork.Some?) ==> Last(s).exit != Drained)
    ensures Solo(Run(events))
  {
    hide Step, Enabled;
    if events != [] {
      var front, e := events[..|events| - 1], events[|events| - 1];
      forall k | 0 <= k < |front| ensures front[..k] == events[..k] {}
      SerialRun(front);
      if Enabled(Run(front), e) {
        StepSolo(Run(front), e);
      }
    }
  }

  /**
   * A loop that ends without a cancel, or on a cancel with no session to interrupt, leaves both slots
   * empty, unless it has just returned from a fork and another fork waits.
   */
  lemma DrainedExit(s: State, e: Event, i: nat)
    requires Enabled(s, e) && i < |s.tasks| && !s.tasks[i].Done? && !e.Interrupted?
    requires Step(s, e).tasks[i] == Done(Drained) || Step(s, e).tasks[i] == Done(Cancelled)
    ensures Step(s, e).steer.None?
    ensures Step(s, e).fork.None? <==> !(s.tasks[i].Handled? && s.fork.Some?)
  {
    LoopEndsBy(s, e, i);
  }

  lemma LoopEndsBy(s: State, e: Event, i: nat)
    requires Enabled(s, e) && i < |s.tasks| && !s.tasks[i].Done? && !e.Interrupted?
    requires Step(s, e).tasks[i] == Done(Drained) || Step(s, e).tasks[i] == Done(Cancelled)
    ensures (e.AfterTurn? && s.fork.None?) || (e.AfterFork? && !s.tasks[i].forked)
    ensures e.task == i
  {
  }

  /** A steer or fork that arrives among these events; while a turn runs it goes to a slot. */
  ghost predicate Arrives(events: seq<Event>) {
    exists k :: 0 <= k < |events| && (events[k].Steer? || events[k].Fork?)
  }

  predicate SlotFilled(s: State) {
    s.steer.Some? || s.fork.Some?
  }

  /** A command that makes an idle runner run a single turn. */
  predicate IdleCommand(c: Event) {
    c.Fork? || (c.Steer? && !c.request.blank)
  }

  /** The only running activity, number `i`, is one that never looks at the slots: an idle command's, or a cancel's. */
  ghost predicate Single(s: State, i: nat, cancel: bool) {
    && i + 1 == |s.tasks| && s.busy
    && (if cancel then s.tasks[i].Cancelling?
        else s.tasks[i].IdleOps? || s.tasks[i].IdleTurn? || s.tasks[i].IdleEnded?)
    && (forall k :: 0 <= k < i ==> s.tasks[k].Done?)
  }

  /** The events that may come before such an activity ends: none that ends it, and no message. */
  ghost predicate Meanwhile(events: seq<Event>, cancel: bool) {
    forall e :: e in events ==> !e.Message? && (if cancel then !e.Interrupted? else !e.AfterIdleTurn?)
  }

  lemma SingleStarts(s: State, c: Event)
    requires Solo(s) && !s.busy && IdleCommand(c)
    ensures var z := Step(s, c); Single(z, |s.tasks|, false) && (SlotFilled(z) <==> SlotFilled(s))
  {
  }

  lemma SingleStep(s: State, e: Event, i: nat, cancel: bool)
    requires Single(s, i, cancel) && Enabled(s, e) && Meanwhile([e], cancel)
    ensures var z := Step(s, e); Single(z, i, cancel) && (SlotFilled(z) <==> SlotFilled(s) || e.Steer? || e.Fork?)
  {
    assert e in [e];
  }

  lemma ArrivesMore(events: seq<Event>, e: Event)
    ensures Arrives(events + [e]) <==> Arrives(events) || e.Steer? || e.Fork?
  {
    if k :| 0 <= k < |events| && (events[k].Steer? || events[k].Fork?) {
      assert (events + [e])[k] == events[k];
    }
    assert (events + [e])[|events|] == e;
  }

  lemma MeanwhileSplits(events: seq<Event>, e: Event, cancel: bool)
    requires Meanwhile(events + [e], cancel)
    ensures Meanwhile(events, cancel) && Meanwhile([e], cancel)
  {
    assert forall x :: x in events || x == e ==> x in events + [e];
  }

  lemma {:induction false} SingleRuns(before: seq<Event>, during: seq<Event>, i: nat, cancel: bool)
    requires Single(Run(before), i, cancel) && Meanwhile(during, cancel)
    ensures var s, z := Run(before), Run(before + during);
            Single(z, i, cancel) && (SlotFilled(z) <==> SlotFilled(s) || Arrives(during))
  {
    hide Run, Single, SlotFilled, Step, Arrives, Enabled, Meanwhile;
    if during == [] {
      assert before + during == before;
      NothingArrives(during);
    } else {
      var front, e := during[..|during| - 1], during[|during| - 1];
      assert during == front + [e] && before + during == before + front + [e];
      MeanwhileSplits(front, e, cancel);
      SingleRuns(before, front, i, cancel);
      RunMore(before + front, e);
      ArrivesMore(front, e);
      CommandEnabled(Run(before + front), e);
      if Enabled(Run(before + front), e) {
        SingleStep(Run(before + front), e, i, cancel);
      }
    }
  }

  lemma NothingArrives(events: seq<Event>)
    ensures events == [] ==> !Arrives(events)
  {
  }

  lemma CommandEnabled(s: State, e: Event)
    ensures Command(e) ==> Enabled(s, e)
  {
  }

  lemma RunMore(events: seq<Event>, e: Event)
    ensures Run(events + [e]) == if Enabled(Run(events), e) then Step(Run(events), e) else Run(events)
  {
    assert (events + [e])[..|events|] == events;
  }

  /**
   * The single turn of an idle command never looks at the slots.  When it is over, and no message has come
   * meanwhile, an idle runner has a request waiting if and only if one waited before the command, or a
   * steer or fork arrived during it.
   */
  lemma IdleTurnLeavesExactly(before: seq<Event>, c: Event, during: seq<Event>)
    requires Serial(before) && !Run(before).busy && IdleCommand(c) && Meanwhile(during, false)
    requires Last(Run(before + [c] + during)).IdleEnded?
    ensures var s := Run(before);
            var z := Run(before + [c] + during + [AfterIdleTurn(|s.tasks|)]);
            && !z.busy && Last(z) == Done(Idle)
            && (SlotFilled(z) <==> SlotFilled(s) || Arrives(during))
  {
    hide Run, Serial, Solo, SlotFilled, Arrives;
    var i := |Run(before).tasks|;
    SerialRun(before);
    RunMore(before, c);
    CommandEnabled(Run(before), c);
    SingleStarts(Run(before), c);
    SingleRuns(before + [c], during, i, false);
    RunMore(before + [c] + during, AfterIdleTurn(i));
    SingleEnds(Run(before + [c] + during), i, AfterIdleTurn(i), false);
  }

  /**
   * Nor does a loop that waits for the interrupt of a cancel.  When it ends, an idle runner has a request
   * waiting if and only if one waited when the cancel was consumed, or a steer or fork arrived since.
   */
  lemma CancelLeavesExactly(before: seq<Event>, during: seq<Event>)
    requires Serial(before) && Last(Run(before)).Cancelling? && Meanwhile(during, true)
    ensures var s := Run(before);
            var z := Run(before + during + [Interrupted(|s.tasks| - 1)]);
            && !z.busy && Last(z) == Done(Cancelled)
            && (SlotFilled(z) <==> SlotFilled(s) || Arrives(during))
  {
    hide Run, Serial, SlotFilled, Arrives;
    var i := |Run(before).tasks| - 1;
    SerialRun(before);
    SingleRuns(before, during, i, true);
    RunMore(before + during, Interrupted(i));
    SingleEnds(Run(before + during), i, Interrupted(i), true);
  }

  lemma SingleEnds(s: State, i: nat, e: Event, cancel: bool)
    requires Single(s, i, cancel) && (cancel || Last(s).IdleEnded?)
    requires e == if cancel then Interrupted(i) else AfterIdleTurn(i)
    ensures Enabled(s, e)
    ensures var z := Step(s, e);
            && !z.busy && Last(z) == Done(if cancel then Cancelled else Idle)
            && (SlotFilled(z) <==> SlotFilled(s))
  {
  }

  // ----- Two kinds of activities -----

  /** What the call that handles a message can be doing: it runs the loop, and it ends drained or cancelled. */
  ghost predicate OfLoop(t: Task) {
    || t.Turn? || t.Ended? || t.Forking? || t.Handled? || t.Steering? || t.Cancelling?
    || t == Done(Drained) || t == Done(Cancelled)
  }

  /** What the call that handles a steer or a fork while idle can be doing. */
  ghost predicate OfIdle(t: Task) {
    t.IdleOps? || t.IdleTurn? || t.IdleEnded? || t == Done(Idle)
  }

  lemma StepKeepsKind(s: State, e: Event)
    requires Enabled(s, e)
    ensures var z := Step(s, e);
            && (e.Message? ==> |z.tasks| == |s.tasks| + 1)
            && |s.tasks| <= |z.tasks| <= |s.tasks| + 1
            && (forall i :: 0 <= i < |s.tasks| ==>
                  && (OfLoop(s.tasks[i]) ==> OfLoop(z.tasks[i]))
                  && (OfIdle(s.tasks[i]) ==> OfIdle(z.tasks[i])))
            && (|z.tasks| > |s.tasks| ==>
                  var t := z.tasks[|s.tasks|]; if e.Message? then OfLoop(t) else (e.Steer? || e.Fork?) && OfIdle(t))
  {
  }

  /**
   * In every run the activity a message opens runs the loop to its end, and never the single turn of an
   * idle command; the activity a steer or a fork opens never enters the loop.
   */
  lemma {:induction false} KindsStay(events: seq<Event>, k: nat)
    requires k < |events|
    requires events[k].Message? || |Run(events[..k + 1]).tasks| > |Run(events[..k]).tasks|
    ensures var i, z := |Run(events[..k]).tasks|, Run(events);
            i < |z.tasks| && if events[k].Message? then OfLoop(z.tasks[i]) else OfIdle(z.tasks[i])
    ensures var i, z := |Run(events[..k]).tasks|, Run(events);
            && (events[k].Message? ==>
                  !z.tasks[i].IdleOps? && !z.tasks[i].IdleTurn? && !z.tasks[i].IdleEnded? && z.tasks[i] != Done(Idle))
            && (!events[k].Message? ==>
                  z.tasks[i].IdleOps? || z.tasks[i].IdleTurn? || z.tasks[i].IdleEnded? || z.tasks[i] == Done(Idle))
  {
    hide Run, Step, Enabled;
    var n := |events| - 1;
    var front, e := events[..n], events[n];
    assert events == front + [e];
    RunMore(front, e);
    CommandEnabled(Run(front), e);
    if Enabled(Run(front), e) { StepKeepsKind(Run(front), e); }
    if k < n {
      assert front[..k] == events[..k] && front[..k + 1] == events[..k + 1];
      KindsStay(front, k);
    } else {
      assert events[..k + 1] == events;
    }
  }

  /** A loop whose turn is over goes on with the waiting steer, as a turn of the same loop. */
  lemma TakesSteer(before: seq<Event>, i: nat, live: bool, r: Request)
    requires var s := Run(before);
      i < |s.tasks| && s.tasks[i] == Ended && s.fork == None && s.steer == Some(r) && !r.blank
    ensures var s, z := Run(before), Run(before + [AfterTurn(i, live)] + [Prepared(i)]);
            && z.tasks == s.tasks[i := Turn(r)] && z.busy == s.busy && z.steer == None && z.fork == None
            && z.ledger == s.ledger.(started := s.ledger.started + [r])
  {
    hide Run;
    RunMore(before, AfterTurn(i, live));
    RunMore(before + [AfterTurn(i, live)], Prepared(i));
  }

  /** A waiting fork goes first, and a waiting steer stays where it is. */
  lemma TakesFork(before: seq<Event>, i: nat, live: bool, live': bool, r: Request)
    requires var s := Run(before); i < |s.tasks| && s.tasks[i] == Ended && s.fork == Some(r)
    ensures var s := Run(before);
            var z := Run(before + [AfterTurn(i, live)] + [ForkSettles(i, true)] + [AfterFork(i, live')]);
            && z.tasks == s.tasks[i := Turn(r)] && z.busy == s.busy && z.steer == s.steer && z.fork == None
            && z.ledger == s.ledger.(started := s.ledger.started + [r])
  {
    hide Run;
    RunMore(before, AfterTurn(i, live));
    RunMore(before + [AfterTurn(i, live)], ForkSettles(i, true));
    RunMore(before + [AfterTurn(i, live)] + [ForkSettles(i, true)], AfterFork(i, live'));
  }

  /** A fork that fails becomes a steer in place of the one that waited, and the loop takes it as one. */
  lemma FailedForkSteers(before: seq<Event>, i: nat, live: bool, live': bool, r: Request)
    requires var s := Run(before); i < |s.tasks| && s.tasks[i] == Ended && s.fork == Some(r) && !r.blank
    ensures var s := Run(before);
            var z := Run(before + [AfterTurn(i, live)] + [ForkSettles(i, false)] + [AfterFork(i, live')]);
            && z.tasks == s.tasks[i := Steering(r)] && z.busy == s.busy && z.steer == None && z.fork == None
            && z.ledger == s.ledger.(overwritten := s.ledger.overwritten + OptSeq(s.steer))
  {
    hide Run;
    RunMore(before, AfterTurn(i, live));
    RunMore(before + [AfterTurn(i, live)], ForkSettles(i, false));
    RunMore(before + [AfterTurn(i, live)] + [ForkSettles(i, false)], AfterFork(i, live'));
  }

  /** A waiting cancel ends the loop: at once, or after the interrupt of the session there is. */
  lemma TakesCancel(before: seq<Event>, i: nat, live: bool, r: Request)
    requires var s := Run(before);
      i < |s.tasks| && s.tasks[i] == Ended && s.fork == None && s.steer == Some(r) && r.blank
    ensures var s, z := Run(before), Run(before + [AfterTurn(i, live)]);
            && z.tasks == s.tasks[i := if live then Cancelling else Done(Cancelled)]
            && z.busy == (live && s.busy) && z.steer == None && z.fork == None
            && z.ledger == s.ledger.(cancelled := s.ledger.cancelled + [r])
    ensures live ==> var z := Run(before + [AfterTurn(i, live)] + [Interrupted(i)]);
                     z.tasks == Run(before).tasks[i := Done(Cancelled)] && !z.busy
  {
    hide Run;
    RunMore(before, AfterTurn(i, live));
    RunMore(before + [AfterTurn(i, live)], Interrupted(i));
  }

  /** With nothing waiting the loop ends drained and leaves the runner idle. */
  lemma Drains(before: seq<Event>, i: nat, live: bool)
    requires var s := Run(before); i < |s.tasks| && s.tasks[i] == Ended && s.fork == None && s.steer == None
    ensures var s, z := Run(before), Run(before + [AfterTurn(i, live)]);
            z == s.(busy := false, tasks := s.tasks[i := Done(Drained)])
  {
    hide Run;
    RunMore(before, AfterTurn(i, live));
  }

  /** A stream event ends the turn of a loop exactly when it is the result or a request waits in either slot. */
  lemma StreamBreaksExactly(s: State, i: nat, result: bool)
    requires i < |s.tasks| && s.tasks[i].Turn?
    ensures Step(s, Yields(i, result)).tasks[i] == Ended <==> result || s.steer != None || s.fork != None
    ensures Step(s, Yields(i, result)).(tasks := s.tasks) == s
  {
  }

  /** Turns run on requests that have been started, cancels are the blank requests, and no blank one is steered. */
  ghost predicate Labelled(s: State) {
    && (forall i :: 0 <= i < |s.tasks| ==> TaskLabelled(s.tasks[i], s.ledger.started))
    && (forall r :: r in s.ledger.cancelled ==> r.blank)
  }

  ghost predicate TaskLabelled(t: Task, started: seq<Request>) {
    && (t.Turn? || t.IdleTurn? ==> t.request in started)
    && (t.Steering? || t.IdleOps? ==> !t.request.blank)
  }

  lemma LabelledGrows(s: State, z: State)
    requires Labelled(s) && |s.tasks| <= |z.tasks|
    requires forall r :: r in s.ledger.started ==> r in z.ledger.started
    requires forall i :: 0 <= i < |z.tasks| ==>
               (i < |s.tasks| && z.tasks[i] == s.tasks[i]) || TaskLabelled(z.tasks[i], z.ledger.started)
    requires forall r :: r in z.ledger.cancelled ==> r in s.ledger.cancelled || r.blank
    ensures Labelled(z)
  {
  }

  lemma CommandLabelled(s: State, e: Event)
    requires Labelled(s) && Command(e)
    ensures Labelled(Step(s, e))
  {
    LabelledGrows(s, Step(s, e));
  }

  lemma ResumptionMoves(s: State, e: Event)
    requires !Command(e) && Enabled(s, e) && TaskLabelled(s.tasks[e.task], s.ledger.started)
    ensures var z := Step(s, e);
            && |z.tasks| == |s.tasks| && TaskLabelled(z.tasks[e.task], z.ledger.started)
            && (forall k :: 0 <= k < |s.tasks| && k != e.task ==> z.tasks[k] == s.tasks[k])
            && (forall r :: r in s.ledger.started ==> r in z.ledger.started)
            && (forall r :: r in z.ledger.cancelled ==> r in s.ledger.cancelled || r.blank)
  {
  }

  lemma StepLabelled(s: State, e: Event)
    requires Labelled(s) && !Command(e) && Enabled(s, e)
    ensures Labelled(Step(s, e))
  {
    LabelledAt(s, e.task);
    ResumptionMoves(s, e);
    hide *;
    LabelledGrows(s, Step(s, e));
  }

  lemma LabelledAt(s: State, i: nat)
    requires Labelled(s) && i < |s.tasks|
    ensures TaskLabelled(s.tasks[i], s.ledger.started)
  {
    hide TaskLabelled;
  }

  lemma {:induction false} RunLabelled(events: seq<Event>)
    ensures Labelled(Run(events))
  {
    hide Step, Enabled, Labelled;
    if events == [] {
      StartLabelled();
    } else {
      var front, e := events[..|events| - 1], events[|events| - 1];
      RunLabelled(front);
      CommandEnabled(Run(front), e);
      if Command(e) {
        CommandLabelled(Run(front), e);
      } else if Enabled(Run(front), e) {
        StepLabelled(Run(front), e);
      }
    }
  }

  lemma StartLabelled()
    ensures Labelled(START)
  {
  }

  /** Commands that come while the runner is busy only fill their own slot; the last one of a kind waits there. */
  lemma BusyCommands(s: State, r: Request)
    requires s.busy
    ensures var z := Step(s, Steer(r)); z.steer == Some(r) && z.fork == s.fork && z.tasks == s.tasks && z.busy
    ensures var z := Step(s, Fork(r)); z.fork == Some(r) && z.steer == s.steer && z.tasks == s.tasks && z.busy
  {
  }

  /** A blank steer while idle opens nothing; another one opens its context operations first, and a fork its turn. */
  lemma IdleCommands(s: State, r: Request)
    requires !s.busy
    ensures Step(s, Steer(r)).tasks == if r.blank then s.tasks else s.tasks + [IdleOps(r)]
    ensures Step(s, Fork(r)).tasks == s.tasks + [IdleTurn(r)]
    ensures Step(s, Steer(r)).busy == !r.blank && Step(s, Fork(r)).busy
    ensures (Step(s, Steer(r)).steer, Step(s, Fork(r)).fork) == (s.steer, s.fork)
  {
  }

  /** The activity looks at the slots, or writes one on its own. */
  predicate TouchesSlots(e: Event) {
    e.AfterTurn? || e.AfterFork? || e.ForkSettles?
  }

  /** A steer or fork arrives among these events while the runner is busy. */
  ghost predicate Stores(before: seq<Event>, events: seq<Event>) {
    exists k :: 0 <= k < |events| && (events[k].Steer? || events[k].Fork?) && Run(before + events[..k]).busy
  }

  lemma StoresMore(before: seq<Event>, events: seq<Event>, e: Event)
    ensures Stores(before, events + [e]) <==>
              Stores(before, events) || ((e.Steer? || e.Fork?) && Run(before + events).busy)
  {
    hide Run;
    var more := events + [e];
    assert more[|events|] == e && more[..|events|] == events;
    if k :| 0 <= k < |events| && (events[k].Steer? || events[k].Fork?) && Run(before + events[..k]).busy {
      assert more[k] == events[k] && more[..k] == events[..k];
    }
    if k :| 0 <= k < |more| && (more[k].Steer? || more[k].Fork?) && Run(before + more[..k]).busy {
      if k < |events| { assert more[k] == events[k] && more[..k] == events[..k]; }
    }
  }

  lemma UntouchedStep(s: State, e: Event)
    requires Enabled(s, e) && !TouchesSlots(e)
    ensures SlotFilled(Step(s, e)) <==> SlotFilled(s) || ((e.Steer? || e.Fork?) && s.busy)
  {
  }

  /**
   * In any run, with messages at any time and any number of loops: as long as no loop gets to look at the
   * slots, a request waits if and only if one waited before, or one arrived while the runner was busy.
   */
  lemma {:induction false} SlotsFillExactly(before: seq<Event>, during: seq<Event>)
    requires forall e :: e in during ==> !TouchesSlots(e)
    ensures SlotFilled(Run(before + during)) <==> SlotFilled(Run(before)) || Stores(before, during)
  {
    hide Run, SlotFilled, Step, Stores, Enabled;
    if during == [] {
      assert before + during == before;
      NothingStored(before, during);
    } else {
      var front, e := during[..|during| - 1], during[|during| - 1];
      assert during == front + [e] && before + during == before + front + [e];
      SlotsFillExactly(before, front);
      RunMore(before + front, e);
      StoresMore(before, front, e);
      CommandEnabled(Run(before + front), e);
      if Enabled(Run(before + front), e) {
        UntouchedStep(Run(before + front), e);
      }
    }
  }

  lemma NothingStored(before: seq<Event>, events: seq<Event>)
    ensures events == [] ==> !Stores(before, events)
  {
  }

  /** The exception: another loop takes the steer that a failed fork has left, and a new fork arrives. */
  lemma OverlapLeavesFork(r: Request) returns (events: seq<Event>)
    requires !r.blank
    ensures var s := Run(events);
            s.tasks == [Done(Drained), Steering(r)] && s.fork == Some(r) && !s.busy
  {
    hide Run;
    events := Then([], Message(r));
    events := Then(events, Message(r));
    events := Then(events, Fork(r));
    events := Then(events, Closes(0));
    events := Then(events, AfterTurn(0, true));
    assert Run(events).tasks == [Forking(r), Turn(r)];
    events := Then(events, ForkSettles(0, false));
    events := Then(events, Closes(1));
    events := Then(events, AfterTurn(1, true));
    assert Run(events).tasks == [Handled(r, false), Steering(r)];
    events := Then(events, Fork(r));
    events := Then(events, AfterFork(0, true));
  }

  /** A steer that arrives during the single turn of an idle command is left waiting by an idle runner. */
  lemma IdleTurnLeavesSteer(r: Request) returns (events: seq<Event>)
    ensures var s := Run(events); s.tasks == [Done(Idle)] && s.steer == Some(r) && !s.busy
    ensures Serial(events)
  {
    hide Run;
    events := Then([], Fork(r));
    events := Then(events, Steer(r));
    events := Then(events, Yields(0, false));
    events := Then(events, AfterIdleTurn(0));
  }

  /** A steer that arrives while a loop waits for the interrupt of a cancel is left waiting as well. */
  lemma CancelLeavesSteer(m: Request, blank: Request, r: Request) returns (events: seq<Event>)
    requires blank.blank
    ensures var s := Run(events); s.tasks == [Done(Cancelled)] && s.steer == Some(r) && !s.busy
    ensures Serial(events)
  {
    hide Run;
    events := Then([], Message(m));
    events := Then(events, Steer(blank));
    events := Then(events, Yields(0, false));
    events := Then(events, AfterTurn(0, true));
    events := Then(events, Steer(r));
    events := Then(events, Interrupted(0));
  }

  lemma Then(events: seq<Event>, e: Event) returns (longer: seq<Event>)
    ensures longer == events + [e]
    ensures events == [] ==> Run(events) == START
    ensures Run(longer) == if Enabled(Run(events), e) then Step(Run(events), e) else Run(events)
  {
    longer := events + [e];
    assert longer[..|events|] == events;
  }
}
