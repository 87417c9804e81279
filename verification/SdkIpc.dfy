/** The session over the SDK socket: an event stream shared with the answers to control requests. */
module SdkIpc {
  import opened Text
  import opened Framing

  /** A parsed line.  A control response names the request it answers, if it names one. */
  datatype Event =
    | ControlResponse(requestId: Option<string>, failed: bool, payload: string)
    | Result(payload: string)
    | Other(payload: string)

  datatype Verdict = Resolved(payload: string) | Rejected(reason: string)

  datatype Settlement = Settlement(requestId: string, verdict: Verdict)

  /** An event that answers a waiting control request. */
  predicate Matches(controls: set<string>, e: Event) {
    e.ControlResponse? && Truthy(e.requestId) && e.requestId.value in controls
  }

  function VerdictOf(e: Event): Verdict
    requires e.ControlResponse?
  {
    if e.failed then Rejected(e.payload) else Resolved(e.payload)
  }

  /** What a batch of events does: which are for the stream, which settle a request, which requests still wait. */
  datatype Routing = Routing(stream: seq<Event>, settled: seq<Settlement>, controls: set<string>)

  /** One more event. */
  function RouteOne(r: Routing, e: Event): Routing {
    if Matches(r.controls, e)
    then Routing(r.stream, r.settled + [Settlement(e.requestId.value, VerdictOf(e))], r.controls - {e.requestId.value})
    else r.(stream := r.stream + [e])
  }

  function Route(controls: set<string>, events: seq<Event>): Routing {
    if events == [] then Routing([], [], controls)
    else RouteOne(Route(controls, events[..|events| - 1]), events[|events| - 1])
  }

  /** One batch after another. */
  function Joined(r: Routing, s: Routing): Routing {
    Routing(r.stream + s.stream, r.settled + s.settled, s.controls)
  }

  /** The events in a list of lines; a line that is not JSON, or is null, is skipped. */
  function Parsed(parse: string -> Option<Event>, lines: seq<string>): seq<Event> {
    if lines == [] then []
    else
      Parsed(parse, lines[..|lines| - 1]) +
      (match parse(lines[|lines| - 1]) case Some(e) => [e] case None => [])
  }

  /** No two settlements of one request, and none of a request that still waits. */
  ghost predicate SettledOnce(settled: seq<Settlement>, controls: set<string>) {
    && (forall i, j :: 0 <= i < j < |settled| ==> settled[i].requestId != settled[j].requestId)
    && (forall i :: 0 <= i < |settled| ==> settled[i].requestId !in controls)
  }

  /** What a session has routed, settled and delivered so far, and who waits. */
  datatype Accounts = Accounts(
    routed: seq<Event>, settled: seq<Settlement>, controls: set<string>, waiters: nat, delivered: seq<Event>)

  /** From `was` to `now` a batch with this routing was handled; waiting consumers were served as far as it went. */
  ghost predicate Advanced(was: Accounts, now: Accounts, r: Routing) {
    && now.routed == was.routed + r.stream
    && now.settled == was.settled + r.settled
    && now.controls == r.controls
    && now.waiters == (if |r.stream| < was.waiters then was.waiters - |r.stream| else 0)
    && was.delivered <= now.delivered
    && |now.delivered| - |was.delivered| == was.waiters - now.waiters
  }

  class SdkIpcSession {
    const parse: string -> Option<Event>
    var connected: bool
    var buffer: string
    var eventQueue: seq<Event>
    /** How many consumers wait in `stream` for the next event. */
    var waiters: nat
    var controls: set<string>
    /** Everything routed to the stream, everything consumers got, every control settlement, all in order. */
    ghost var routed: seq<Event>
    ghost var delivered: seq<Event>
    ghost var settled: seq<Settlement>
    ghost var issued: set<string>

    ghost predicate Valid()
      reads this
    {
      && delivered + eventQueue == routed
      && (eventQueue == [] || waiters == 0)
      && SettledOnce(settled, controls)
      && controls <= issued
      && (forall i :: 0 <= i < |settled| ==> settled[i].requestId in issued)
    }

    ghost function Books(): Accounts
      reads this
    {
      Accounts(routed, settled, controls, waiters, delivered)
    }

    constructor (parse: string -> Option<Event>)
      ensures Valid() && this.parse == parse && !connected
      ensures buffer == "" && eventQueue == [] && waiters == 0 &&
              controls == {} && delivered == [] && settled == [] && issued == {}
    {
      this.parse := parse;
      connected, buffer, eventQueue, waiters, controls := false, "", [], 0, {};
      routed, delivered, settled, issued := [], [], [], {};
    }

    method OnConnect()
      requires Valid()
      modifies this`connected, this`buffer
      ensures Valid() && connected && buffer == ""
    {
      connected, buffer := true, "";
    }

    /** `handleEvent`: answers a control request, or goes to the oldest waiting consumer, or into the queue. */
    method HandleEvent(event: Event)
      requires Valid()
      modifies this`eventQueue, this`waiters, this`controls, this`routed, this`delivered, this`settled
      ensures Valid()
      ensures Matches(old(controls), event) ==>
        && settled == old(settled) + [Settlement(event.requestId.value, VerdictOf(event))]
        && controls == old(controls) - {event.requestId.value}
        && routed == old(routed) && delivered == old(delivered) &&
           eventQueue == old(eventQueue) && waiters == old(waiters)
      ensures Advanced(old(Books()), Books(), Route(old(controls), [event]))
      ensures !Matches(old(controls), event) ==>
        && settled == old(settled) && controls == old(controls) && routed == old(routed) + [event]
        && waiters == (if old(waiters) > 0 then old(waiters) - 1 else 0)
        && delivered == (if old(waiters) > 0 then old(delivered) + [event] else old(delivered))
    {
      if event.ControlResponse? && Truthy(event.requestId) && event.requestId.value in controls {
        controls := controls - {event.requestId.value};
        settled := settled + [Settlement(event.requestId.value, VerdictOf(event))];
        return;
      }
      routed := routed + [event];
      if waiters > 0 {
        waiters := waiters - 1;
        delivered := delivered + [event];
      } else {
        eventQueue := eventQueue + [event];
      }
    }

    /** A chunk arrives: every complete, non-blank line that parses is handled, in order. */
    method OnData(chunk: string)
      requires Valid()
      modifies this`buffer, this`eventQueue, this`waiters, this`controls, this`routed, this`delivered, this`settled
      ensures Valid()
      ensures buffer == Rest(old(buffer) + chunk)
      ensures Advanced(old(Books()), Books(), Route(old(controls), Parsed(parse, Lines(old(buffer) + chunk))))
    {
      buffer := buffer + chunk;
      var lines := Complete(buffer);
      buffer := Rest(buffer);
      NothingAdvances(Books());
      assert Lines(old(buffer) + chunk) == NonBlank(lines) && NonBlank(lines[..0]) == [] && Parsed(parse, []) == [];
      hide *;
      for i := 0 to |lines|
        invariant Valid() && buffer == Rest(old(buffer) + chunk)
        invariant Advanced(old(Books()), Books(), Route(old(controls), Parsed(parse, NonBlank(lines[..i]))))
      {
        NextLine(parse, lines, i);
        HandleLine(lines[i], old(Books()), Parsed(parse, NonBlank(lines[..i])));
      }
      assert lines[..|lines|] == lines;
    }

    /** One line after the events `done` since the session's books were `was`. */
    method HandleLine(line: string, ghost was: Accounts, ghost done: seq<Event>)
      requires Valid() && Advanced(was, Books(), Route(was.controls, done))
      modifies this`eventQueue, this`waiters, this`controls, this`routed, this`delivered, this`settled
      ensures Valid() && Advanced(was, Books(), Route(was.controls, done + EventsIn(parse, line)))
    {
      hide Valid, Advanced, Route;
      if Blank(line) {
        assert done + EventsIn(parse, line) == done;
        return;
      }
      var event := parse(line);
      if event.Some? {
        ghost var mid := Books();
        HandleEvent(event.value);
        AdvancesOn(was, mid, Books(), done, event.value);
      } else {
        assert done + EventsIn(parse, line) == done;
      }
    }

    /** One step of a consumer in `stream`: take the oldest queued event, or wait. */
    method Next() returns (event: Option<Event>)
      requires Valid()
      modifies this`eventQueue, this`waiters, this`delivered
      ensures Valid()
      ensures old(eventQueue) != [] ==>
        && event == Some(old(eventQueue)[0]) && eventQueue == old(eventQueue)[1..]
        && delivered == old(delivered) + [old(eventQueue)[0]] && waiters == old(waiters)
      ensures old(eventQueue) == [] ==>
        event == None && eventQueue == [] && waiters == old(waiters) + 1 && delivered == old(delivered)
    {
      if eventQueue != [] {
        event := Some(eventQueue[0]);
        eventQueue := eventQueue[1..];
        delivered := delivered + [event.value];
      } else {
        waiters := waiters + 1;
        event := None;
      }
    }

    /** `sendControl` under a request id that was never used before. */
    method SendControl(requestId: string) returns (accepted: bool)
      requires Valid() && requestId !in issued
      modifies this`controls, this`issued
      ensures Valid() && accepted == connected
      ensures controls == (if accepted then old(controls) + {requestId} else old(controls))
      ensures issued == (if accepted then old(issued) + {requestId} else old(issued))
    {
      if !connected {
        return false;
      }
      controls := controls + {requestId};
      issued := issued + {requestId};
      accepted := true;
    }

    /** The timer of a control request fires. */
    method OnTimeout(requestId: string)
      requires Valid()
      modifies this`controls, this`settled
      ensures Valid() && controls == old(controls) - {requestId}
      ensures settled == old(settled) +
              (if requestId in old(controls) then [Settlement(requestId, Rejected("timed out"))] else [])
    {
      if requestId in controls {
        controls := controls - {requestId};
        settled := settled + [Settlement(requestId, Rejected("timed out"))];
      }
    }

    /** The socket closes: consumers are woken with nothing, control requests are left to their timers. */
    method OnSocketClose()
      requires Valid()
      modifies this`connected, this`waiters
      ensures Valid() && !connected && waiters == 0
    {
      connected, waiters := false, 0;
    }

    /** `close`: every waiting control request is rejected, each once. */
    method Close()
      requires Valid()
      modifies this`connected, this`waiters, this`controls, this`settled
      ensures Valid() && !connected && waiters == 0 && controls == {}
      ensures old(settled) <= settled
      ensures forall id :: id in old(controls) <==> ClosedIn(settled[|old(settled)|..], id)
      ensures |settled| == |old(settled)| + |old(controls)|
    {
      hide ClosedIn;
      connected, waiters := false, 0;
      ghost var was := settled;
      NoneClosed(settled[|was|..]);
      while controls != {}
        invariant Valid() && controls <= old(controls) && was <= settled && waiters == 0 && !connected
        invariant |settled| + |controls| == |was| + |old(controls)|
        invariant forall id :: id in old(controls) <==> id in controls || ClosedIn(settled[|was|..], id)
        decreases |controls|
      {
        var id :| id in controls;
        ghost var tail := settled[|was|..];
        controls := controls - {id};
        settled := settled + [Settlement(id, Rejected("session closed"))];
        assert settled[|was|..] == tail + [Settlement(id, Rejected("session closed"))];
        ClosedMore(tail, id);
      }
    }
  }

  /** A request is rejected because the session was closed. */
  ghost predicate ClosedIn(settled: seq<Settlement>, id: string) {
    Settlement(id, Rejected("session closed")) in settled
  }

  lemma NoneClosed(none: seq<Settlement>)
    ensures none == [] ==> forall id :: !ClosedIn(none, id)
  {
  }

  lemma ClosedMore(settled: seq<Settlement>, id: string)
    ensures forall x :: ClosedIn(settled + [Settlement(id, Rejected("session closed"))], x) <==>
                  ClosedIn(settled, x) || x == id
  {
  }

  /** The event a line carries, if it carries one. */
  function EventsIn(parse: string -> Option<Event>, line: string): seq<Event> {
    if Blank(line) then [] else match parse(line) case Some(e) => [e] case None => []
  }

  lemma NothingAdvances(a: Accounts)
    ensures Advanced(a, a, Route(a.controls, []))
  {
  }

  lemma AdvancesOn(was: Accounts, mid: Accounts, now: Accounts, done: seq<Event>, e: Event)
    requires Advanced(was, mid, Route(was.controls, done)) && Advanced(mid, now, Route(mid.controls, [e]))
    ensures Advanced(was, now, Route(was.controls, done + [e]))
  {
    RouteAppend(was.controls, done, [e]);
    hide Route;
  }

  lemma NextLine(parse: string -> Option<Event>, lines: seq<string>, i: nat)
    requires i < |lines|
    ensures Parsed(parse, NonBlank(lines[..i + 1])) ==
            Parsed(parse, NonBlank(lines[..i])) + EventsIn(parse, lines[i])
  {
    var next := if Blank(lines[i]) then [] else [lines[i]];
    assert lines[..i + 1][..i] == lines[..i];
    assert NonBlank(lines[..i + 1]) == NonBlank(lines[..i]) + next;
    ParsedAppend(parse, NonBlank(lines[..i]), next);
    assert next != [] ==> next[..0] == [] && Parsed(parse, next) == Parsed(parse, []) + EventsIn(parse, lines[i]);
  }

  lemma RouteMore(controls: set<string>, events: seq<Event>, e: Event)
    ensures Route(controls, events + [e]) == RouteOne(Route(controls, events), e)
  {
    assert (events + [e])[..|events|] == events;
  }

  lemma JoinedOne(r: Routing, s: Routing, e: Event)
    ensures Joined(r, RouteOne(s, e)) == RouteOne(Joined(r, s), e)
  {
    assert r.stream + (s.stream + [e]) == r.stream + s.stream + [e];
    assert forall x: Settlement :: r.settled + (s.settled + [x]) == r.settled + s.settled + [x];
  }

  // ----- Chunks do not matter -----

  lemma {:induction false} ParsedAppend(parse: string -> Option<Event>, a: seq<string>, b: seq<string>)
    ensures Parsed(parse, a + b) == Parsed(parse, a) + Parsed(parse, b)
  {
    if b == [] {
      assert a + b == a;
    } else {
      ParsedAppend(parse, a, b[..|b| - 1]);
      assert (a + b)[..|a + b| - 1] == a + b[..|b| - 1];
    }
  }

  lemma {:induction false} RouteAppend(controls: set<string>, a: seq<Event>, b: seq<Event>)
    ensures Joined(Route(controls, a), Route(Route(controls, a).controls, b)) == Route(controls, a + b)
  {
    var r := Route(controls, a);
    if b == [] {
      assert a + b == a && Joined(r, Routing([], [], r.controls)) == r;
    } else {
      hide Route, RouteOne, Joined;
      var front, e := b[..|b| - 1], b[|b| - 1];
      RouteAppend(controls, a, front);
      assert a + b == a + front + [e] && b == front + [e];
      RouteMore(controls, a + front, e);
      RouteMore(r.controls, front, e);
      JoinedOne(r, Route(r.controls, front), e);
    }
  }

  /** The routing of a stream read from buffer `buffer`. */
  function Received(parse: string -> Option<Event>, buffer: string, controls: set<string>, text: string): Routing {
    Route(controls, Parsed(parse, Lines(buffer + text)))
  }

  /**
   * Two chunks in a row are routed as their concatenation is: same stream, same settlements, same
   * requests left, same buffer.
   */
  lemma ChunksJoin(parse: string -> Option<Event>, buffer: string, controls: set<string>, a: string, b: string)
    ensures var r := Received(parse, buffer, controls, a);
            var s := Received(parse, Rest(buffer + a), r.controls, b);
            && Received(parse, buffer, controls, a + b) ==
                  Routing(r.stream + s.stream, r.settled + s.settled, s.controls)
            && Rest(buffer + (a + b)) == Rest(Rest(buffer + a) + b)
  {
    assert buffer + (a + b) == (buffer + a) + b;
    LinesAnywhere(buffer + a, b);
    SplitAnywhere(buffer + a, b);
    ParsedAppend(parse, Lines(buffer + a), Lines(Rest(buffer + a) + b));
    RouteAppend(controls, Parsed(parse, Lines(buffer + a)), Parsed(parse, Lines(Rest(buffer + a) + b)));
  }

  /** The routing of a list of chunks, one after the other. */
  function ReceivedAll(parse: string -> Option<Event>, controls: set<string>, chunks: seq<string>): (Routing, string) {
    if chunks == [] then (Routing([], [], controls), "")
    else
      var (r, buffer) := ReceivedAll(parse, controls, chunks[..|chunks| - 1]);
      var s := Received(parse, buffer, r.controls, chunks[|chunks| - 1]);
      (Routing(r.stream + s.stream, r.settled + s.settled, s.controls), Rest(buffer + chunks[|chunks| - 1]))
  }

  function Concat(chunks: seq<string>): string {
    if chunks == [] then "" else Concat(chunks[..|chunks| - 1]) + chunks[|chunks| - 1]
  }

  /** However a stream is cut into chunks, the outcome is that of the whole stream. */
  lemma {:induction false} ChunkingIrrelevant(parse: string -> Option<Event>, controls: set<string>,
                                     chunks: seq<string>)
    ensures ReceivedAll(parse, controls, chunks) ==
              (Received(parse, "", controls, Concat(chunks)), Rest(Concat(chunks)))
  {
    if chunks == [] {
      assert "" + Concat(chunks) == "";
    } else {
      var front, last := chunks[..|chunks| - 1], chunks[|chunks| - 1];
      ChunkingIrrelevant(parse, controls, front);
      assert "" + Concat(front) == Concat(front);
      ChunksJoin(parse, "", controls, Concat(front), last);
      assert "" + (Concat(front) + last) == Concat(chunks);
    }
  }

  /** Event number `k` is the first response to a request that waits. */
  predicate Answers(controls: set<string>, events: seq<Event>, k: nat)
    requires k < |events|
  {
    && Matches(controls, events[k])
    && forall j :: 0 <= j < k ==> !(events[j].ControlResponse? && events[j].requestId == events[k].requestId)
  }

  /** The events that answer no waiting request, in order. */
  function Unmatched(controls: set<string>, events: seq<Event>): seq<Event> {
    if events == [] then []
    else
      Unmatched(controls, events[..|events| - 1]) +
      (if Answers(controls, events, |events| - 1) then [] else [events[|events| - 1]])
  }

  /** A response to the request `id`. */
  predicate RespondsTo(e: Event, id: string) {
    e.ControlResponse? && e.requestId == Some(id)
  }

  ghost predicate Answered(events: seq<Event>, id: string) {
    id != "" && exists e :: e in events && RespondsTo(e, id)
  }

  lemma AnsweredMore(events: seq<Event>, e: Event, id: string)
    ensures Answered(events + [e], id) <==> Answered(events, id) || (id != "" && RespondsTo(e, id))
  {
    assert e in events + [e];
    if x :| x in events && RespondsTo(x, id) { assert x in events + [e]; }
  }

  /**
   * What goes to the stream is every event but the first response to each waiting request, in order;
   * a request stops waiting exactly when some response names it.
   */
  lemma {:induction false} RoutePartitions(controls: set<string>, events: seq<Event>)
    ensures var r := Route(controls, events);
            && r.stream == Unmatched(controls, events)
            && |r.stream| + |r.settled| == |events|
            && forall id :: id in r.controls <==> id in controls && !Answered(events, id)
  {
    if events != [] {
      var front, e := events[..|events| - 1], events[|events| - 1];
      RoutePartitions(controls, front);
      assert events == front + [e];
      var r := Route(controls, front);
      forall id ensures Answered(events, id) <==> Answered(front, id) || (id != "" && RespondsTo(e, id)) {
        AnsweredMore(front, e, id);
      }
      assert Matches(r.controls, e) <==> Answers(controls, events, |front|) by {
        if Matches(controls, e) {
          var id := e.requestId.value;
          if Answered(front, id) {
            var f :| f in front && RespondsTo(f, id);
            var j :| 0 <= j < |front| && front[j] == f;
            assert events[j] == f;
          } else {
            forall j | 0 <= j < |front| ensures !(events[j].ControlResponse? && events[j].requestId == e.requestId) {
              assert !RespondsTo(front[j], id);
            }
          }
        }
      }
    }
  }

  /** Event number `k` is the first response of the list to the request `id`. */
  ghost predicate FirstResponse(events: seq<Event>, k: nat, id: string) {
    k < |events| && RespondsTo(events[k], id) && forall j :: 0 <= j < k ==> !RespondsTo(events[j], id)
  }

  /** Every settlement is that of a waiting request by its first response: rejected when that reports a failure. */
  lemma {:induction false} SettledByFirst(controls: set<string>, events: seq<Event>)
    ensures forall x :: x in Route(controls, events).settled ==>
              x.requestId in controls && exists k: nat ::
                && FirstResponse(events, k, x.requestId)
                && (events[k].failed ==> x.verdict == Rejected(events[k].payload))
                && (!events[k].failed ==> x.verdict == Resolved(events[k].payload))
  {
    if events != [] {
      var front, e := events[..|events| - 1], events[|events| - 1];
      SettledByFirst(controls, front);
      RoutePartitions(controls, front);
      assert events == front + [e];
      forall x | x in Route(controls, events).settled
        ensures x.requestId in controls
        ensures exists k: nat ::
                  && FirstResponse(events, k, x.requestId)
                  && (events[k].failed ==> x.verdict == Rejected(events[k].payload))
                  && (!events[k].failed ==> x.verdict == Resolved(events[k].payload))
      {
        if x in Route(controls, front).settled {
          var k: nat :|
            && FirstResponse(front, k, x.requestId)
            && (front[k].failed ==> x.verdict == Rejected(front[k].payload))
            && (!front[k].failed ==> x.verdict == Resolved(front[k].payload));
          assert events[k] == front[k] && FirstResponse(events, k, x.requestId);
        } else {
          assert !Answered(front, x.requestId);
          assert FirstResponse(events, |front|, x.requestId);
        }
      }
    }
  }

  /** A line that parses gives one event, and any other line none. */
  lemma ParsedOne(parse: string -> Option<Event>, line: string)
    ensures parse(line).None? ==> Parsed(parse, [line]) == []
    ensures parse(line).Some? ==> Parsed(parse, [line]) == [parse(line).value]
  {
    assert [line][..0] == [];
  }

  // ----- Requests and timers between the chunks -----

  datatype Step = Chunk(text: string) | Control(requestId: string) | Timeout(requestId: string)

  /** An event with what became of it. */
  datatype Handled = Handled(event: Event, matched: bool)

  function Handle(controls: set<string>, events: seq<Event>): (h: seq<Handled>)
    ensures |h| == |events|
  {
    if events == [] then []
    else
      var e := events[|events| - 1];
      Handle(controls, events[..|events| - 1]) +
        [Handled(e, Matches(Route(controls, events[..|events| - 1]).controls, e))]
  }

  function EventsOf(log: seq<Handled>): (e: seq<Event>)
    ensures |e| == |log|
  {
    seq(|log|, i requires 0 <= i < |log| => log[i].event)
  }

  /** The events of a log that went to the stream. */
  function StreamOf(log: seq<Handled>): seq<Event> {
    if log == [] then []
    else StreamOf(log[..|log| - 1]) + (if log[|log| - 1].matched then [] else [log[|log| - 1].event])
  }

  datatype Flow = Flow(buffer: string, controls: set<string>, log: seq<Handled>, routed: seq<Event>)

  /** What each step does to the session, as the methods above say. */
  function OnStep(parse: string -> Option<Event>, f: Flow, step: Step): Flow {
    match step
    case Chunk(text) =>
      var events := Parsed(parse, Lines(f.buffer + text));
      var r := Route(f.controls, events);
      Flow(Rest(f.buffer + text), r.controls, f.log + Handle(f.controls, events), f.routed + r.stream)
    case Control(id) => f.(controls := f.controls + {id})
    case Timeout(id) => f.(controls := f.controls - {id})
  }

  function Run(parse: string -> Option<Event>, steps: seq<Step>): Flow {
    if steps == [] then Flow("", {}, [], [])
    else OnStep(parse, Run(parse, steps[..|steps| - 1]), steps[|steps| - 1])
  }

  function TextOf(steps: seq<Step>): string {
    if steps == [] then ""
    else TextOf(steps[..|steps| - 1]) + (match steps[|steps| - 1] case Chunk(text) => text case _ => "")
  }

  lemma {:induction false} StreamAppend(a: seq<Handled>, b: seq<Handled>)
    ensures StreamOf(a + b) == StreamOf(a) + StreamOf(b)
  {
    if b == [] {
      assert a + b == a;
    } else {
      StreamAppend(a, b[..|b| - 1]);
      assert (a + b)[..|a + b| - 1] == a + b[..|b| - 1];
    }
  }

  lemma {:induction false} HandleIsRoute(controls: set<string>, events: seq<Event>)
    ensures EventsOf(Handle(controls, events)) == events &&
            StreamOf(Handle(controls, events)) == Route(controls, events).stream
  {
    if events != [] {
      var front, e := events[..|events| - 1], events[|events| - 1];
      HandleIsRoute(controls, front);
      var h := Handle(controls, front);
      assert Handle(controls, events)[..|front|] == h;
      assert EventsOf(Handle(controls, events)) == EventsOf(h) + [e] == events;
    }
  }

  ghost predicate Delivers(parse: string -> Option<Event>, f: Flow, text: string) {
    f.buffer == Rest(text) && EventsOf(f.log) == Parsed(parse, Lines(text)) && f.routed == StreamOf(f.log)
  }

  lemma ChunkDelivers(parse: string -> Option<Event>, f: Flow, t: string, text: string)
    requires Delivers(parse, f, t)
    ensures Delivers(parse, OnStep(parse, f, Chunk(text)), t + text)
  {
    hide Rest, Lines, Parsed, Route, Handle, StreamOf;
    var events := Parsed(parse, Lines(f.buffer + text));
    LinesAnywhere(t, text);
    SplitAnywhere(t, text);
    ParsedAppend(parse, Lines(t), Lines(Rest(t) + text));
    HandleIsRoute(f.controls, events);
    StreamAppend(f.log, Handle(f.controls, events));
    assert EventsOf(f.log + Handle(f.controls, events)) == EventsOf(f.log) + EventsOf(Handle(f.controls, events));
  }

  /**
   * Delivery: whatever the chunks, and whatever requests and timeouts come between them, the events
   * handled are the parsed lines of the whole stream, each once and in order, and those routed to the
   * consumers are the ones that did not answer a request waiting when they came.
   */
  lemma Delivery(parse: string -> Option<Event>, steps: seq<Step>)
    ensures var f := Run(parse, steps);
            && f.buffer == Rest(TextOf(steps))
            && EventsOf(f.log) == Parsed(parse, Lines(TextOf(steps)))
            && f.routed == StreamOf(f.log)
  {
    DeliversAll(parse, steps);
  }

  lemma {:induction false} DeliversAll(parse: string -> Option<Event>, steps: seq<Step>)
    ensures Delivers(parse, Run(parse, steps), TextOf(steps))
  {
    if steps != [] {
      hide Delivers, Lines;
      var front, step := steps[..|steps| - 1], steps[|steps| - 1];
      DeliversAll(parse, front);
      if step.Chunk? {
        ChunkDelivers(parse, Run(parse, front), TextOf(front), step.text);
      } else {
        assert TextOf(steps) == TextOf(front);
        OthersDeliver(parse, Run(parse, front), TextOf(front), step);
      }
    }
  }

  lemma OthersDeliver(parse: string -> Option<Event>, f: Flow, t: string, step: Step)
    requires Delivers(parse, f, t) && !step.Chunk?
    ensures Delivers(parse, OnStep(parse, f, step), t)
  {
  }
}
