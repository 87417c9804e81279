/** The orchestrator's side of the runner sockets: which socket serves which session. */
module WsBridge {
  import opened Text

  /**
   * `names` holds the session id of every socket that has one. Sockets are any values that can be told
   * apart.
   */
  datatype State<S> = State(connections: map<string, S>, names: map<S, string>)

  datatype Event<S> =
    | Register(socket: S, id: string)  // a runner message that carries a session id
    | Rekey(oldId: string, newId: string)
    | Close(socket: S)

  ghost predicate Active<S>(s: State<S>, w: S) {
    w in s.names && s.names[w] in s.connections && s.connections[s.names[w]] == w
  }

  ghost function Step<S>(s: State<S>, e: Event<S>): State<S> {
    match e
    case Register(w, id) =>
      if w !in s.names && id != "" then State(s.connections[id := w], s.names[w := id]) else s
    case Rekey(oldId, newId) =>
      if oldId !in s.connections then s
      else
        var w := s.connections[oldId];
        State((s.connections - {oldId})[newId := w], if newId == "" then s.names - {w} else s.names[w := newId])
    case Close(w) =>
      if Active(s, w) then s.(connections := s.connections - {s.names[w]}) else s
  }

  /** The events of the source: an adopted session has a name. */
  ghost predicate Named<S>(e: Event<S>) {
    e.Rekey? ==> e.newId != ""
  }

  ghost predicate AllNamed<S>(events: seq<Event<S>>) {
    forall i :: 0 <= i < |events| ==> Named(events[i])
  }

  ghost function Run<S>(start: State<S>, events: seq<Event<S>>): State<S> {
    if events == [] then start else Step(Run(start, events[..|events| - 1]), events[|events| - 1])
  }

  /** Every registered socket carries the id it is registered under, so no socket serves two sessions. */
  ghost predicate Matched<S>(s: State<S>) {
    forall id :: id in s.connections ==> id != "" && s.connections[id] in s.names && s.names[s.connections[id]] == id
  }

  lemma StepMatched<S>(s: State<S>, e: Event<S>)
    requires Matched(s) && Named(e)
    ensures Matched(Step(s, e))
  {
  }

  /** Rekeying keeps the match exactly when there is nothing to move or the new id is not empty. */
  lemma RekeyMatchedExactly<S>(s: State<S>, oldId: string, newId: string)
    requires Matched(s)
    ensures Matched(Step(s, Rekey(oldId, newId))) <==> oldId !in s.connections || newId != ""
  {
    assert oldId in s.connections ==> newId in Step(s, Rekey(oldId, newId)).connections;
  }

  /** A socket whose session has been taken over by another one, or that has closed, never serves again. */
  lemma StepSuperseded<S>(s: State<S>, e: Event<S>, w: S)
    requires Matched(s) && w in s.names && !Active(s, w)
    ensures var z := Step(s, e); w in z.names && !Active(z, w) && z.names[w] == s.names[w]
  {
  }

  lemma {:induction false} RunMatched<S>(start: State<S>, events: seq<Event<S>>)
    requires Matched(start) && AllNamed(events)
    ensures Matched(Run(start, events))
  {
    hide Step, Matched;
    if events != [] {
      var last := events[|events| - 1];
      assert Named(last);
      RunMatched(start, events[..|events| - 1]);
      StepMatched(Run(start, events[..|events| - 1]), last);
    }
  }

  /** Its close changes nothing, whatever has been registered, adopted or closed in between. */
  lemma {:induction false} SupersededForever<S>(start: State<S>, events: seq<Event<S>>, w: S)
    requires Matched(start) && AllNamed(events) && w in start.names && !Active(start, w)
    ensures var z := Run(start, events);
            && Step(z, Close(w)) == z
            && (forall id :: id in z.connections ==> z.connections[id] != w)
    ensures w in Run(start, events).names && !Active(Run(start, events), w)
  {
    RunMatched(start, events);
    if events != [] {
      var front := events[..|events| - 1];
      SupersededForever(start, front, w);
      RunMatched(start, front);
      StepSuperseded(Run(start, front), events[|events| - 1], w);
    }
  }

  /** Registering a new socket under a served id supersedes the old one at once. */
  lemma TakeOver<S>(s: State<S>, w: S, id: string)
    requires Matched(s) && id in s.connections && w !in s.names
    ensures var z := Step(s, Register(w, id));
            Active(z, w) && !Active(z, s.connections[id]) && Step(z, Close(s.connections[id])) == z
  {
  }

  /** The close of the socket that serves a session takes exactly that session off, and its socket serves no more. */
  lemma CloseFrees<S>(s: State<S>, id: string)
    requires Matched(s) && id in s.connections
    ensures var z := Step(s, Close(s.connections[id]));
            && (forall x :: x in z.connections <==> x in s.connections && x != id)
            && (forall x :: x in z.connections ==> z.connections[x] == s.connections[x])
            && !Active(z, s.connections[id])
  {
  }

  /** The first message with an id makes its socket serve that session; what the socket says later changes nothing. */
  lemma FirstIdServes<S>(s: State<S>, w: S, id: string, later: string)
    requires w !in s.names && id != ""
    ensures var z := Step(s, Register(w, id));
            && id in z.connections && z.connections[id] == w
            && (forall x :: x != id ==> (x in z.connections <==> x in s.connections))
            && (forall x :: x != id && x in z.connections ==> z.connections[x] == s.connections[x])
            && Step(z, Register(w, later)) == z
    ensures Step(s, Register(w, "")) == s
  {
  }

  /** Rekeying lets the socket of the old session serve the new one, and only that; without a socket it does nothing. */
  lemma RekeyServes<S>(s: State<S>, oldId: string, newId: string)
    ensures var z := Step(s, Rekey(oldId, newId));
            && (oldId !in s.connections ==> z == s)
            && (oldId in s.connections ==>
                  && newId in z.connections && z.connections[newId] == s.connections[oldId]
                  && (oldId != newId ==> oldId !in z.connections)
                  && (newId != "" ==> z.connections[newId] in z.names && z.names[z.connections[newId]] == newId)
                  && (forall x :: x != oldId && x != newId ==> (x in z.connections <==> x in s.connections))
                  && (forall x :: x != oldId && x != newId && x in z.connections ==>
                        z.connections[x] == s.connections[x]))
  {
  }

  // ----- The bridge object -----

  datatype Status = Running | Stopped | Error

  class Socket {
    /** The id from the first message that carried one; empty until then. */
    var sessionId: string

    constructor ()
      ensures sessionId == ""
    {
      sessionId := "";
    }
  }

  class WsBridge {
    var connections: map<string, Socket>
    /** What the session manager keeps: sockets in memory, statuses in its table. */
    var runtime: map<string, Socket>
    var status: map<string, Status>
    var shuttingDown: bool
    ghost var sockets: set<Socket>

    ghost function Now(): State<Socket>
      reads this, sockets
    {
      State(connections, map w | w in sockets && w.sessionId != "" :: w.sessionId)
    }

    ghost predicate Valid()
      reads this, sockets
    {
      Matched(Now())
    }

    constructor ()
      ensures Valid() && Now() == State(map[], map[]) && sockets == {}
    {
      connections, runtime, status, shuttingDown := map[], map[], map[], false;
      sockets := {};
    }

    method OnConnection() returns (ws: Socket)
      requires Valid()
      modifies this`sockets
      ensures Valid() && fresh(ws) && sockets == old(sockets) + {ws} && Now() == old(Now())
    {
      ws := new Socket();
      sockets := sockets + {ws};
      assert Now().names == old(Now()).names;
    }

    /** A message registers its socket once; `id` is empty when the message carries none. */
    method OnMessage(ws: Socket, id: string)
      requires Valid() && ws in sockets
      modifies this, ws
      ensures Valid() && sockets == old(sockets) && status == old(status) && shuttingDown == old(shuttingDown)
      ensures Now() == Step(old(Now()), Register(ws, id))
      ensures runtime == if old(ws.sessionId) == "" && id != "" then old(runtime)[id := ws] else old(runtime)
    {
      StepMatched(Now(), Register(ws, id));
      ghost var s := Now();
      if ws.sessionId == "" && id != "" {
        ws.sessionId := id;
        connections := connections[ws.sessionId := ws];
        runtime := runtime[ws.sessionId := ws];
        assert Now().names == s.names[ws := id];
      }
    }

    /** Only the active socket's close clears the session; a session that is not over yet is stopped. */
    method OnClose(ws: Socket)
      requires Valid() && ws in sockets
      modifies this
      ensures Valid() && sockets == old(sockets) && shuttingDown == old(shuttingDown)
      ensures Now() == Step(old(Now()), Close(ws))
      ensures !Active(old(Now()), ws) || ws.sessionId !in old(status) ==>
              runtime == old(runtime) && status == old(status)
      ensures Active(old(Now()), ws) && ws.sessionId in old(status) ==>
                && runtime == old(runtime) - {ws.sessionId}
                && status == old(status)[ws.sessionId :=
                     if old(shuttingDown) || old(status)[ws.sessionId] == Error
                     then old(status)[ws.sessionId] else Stopped]
    {
      StepMatched(Now(), Close(ws));
      var sid := ws.sessionId;
      if sid != "" {
        if sid !in connections || connections[sid] != ws {
          return;
        }
        connections := connections - {sid};
        if sid in status {
          runtime := runtime - {sid};
          if !shuttingDown && status[sid] != Stopped && status[sid] != Error {
            status := status[sid := Stopped];
          }
        }
      }
    }

    method RekeyConnection(oldId: string, newId: string) returns (found: bool)
      requires Valid()
      modifies this, sockets
      ensures Valid() <==> !found || newId != ""
      ensures sockets == old(sockets) && status == old(status) && shuttingDown == old(shuttingDown)
      ensures Now() == Step(old(Now()), Rekey(oldId, newId))
      ensures found == (oldId in old(connections))
      ensures runtime == if found then old(runtime)[newId := old(connections)[oldId]] else old(runtime)
    {
      RekeyMatchedExactly(Now(), oldId, newId);
      ghost var s := Now();
      if oldId !in connections {
        return false;
      }
      var ws := connections[oldId];
      connections := connections - {oldId};
      connections := connections[newId := ws];
      ws.sessionId := newId;
      runtime := runtime[newId := ws];
      assert Now().names == if newId == "" then s.names - {ws} else s.names[ws := newId];
      found := true;
    }
  }
}
