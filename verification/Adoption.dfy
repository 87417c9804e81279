/**
 * The handover of a warm container to a session. Releasing the warm token and assigning the session's
 * happens in one step; the credentials are then awaited; the socket and the container follow in a
 * second step.
 */
module Adoption {
  import opened Text
  import WsBridge
  import Containers
  import TokenPool

  datatype State<S> = State(tokens: map<string, nat>, bridge: WsBridge.State<S>, containers: Containers.Map)

  datatype Event<S> =
    | OnBridge(event: WsBridge.Event<S>)
    | Assigned(id: string, index: nat)
    | Released(id: string)
    | OnContainers(change: Containers.Event)

  ghost function Step<S>(s: State<S>, e: Event<S>): State<S> {
    match e
    case OnBridge(b) => s.(bridge := WsBridge.Step(s.bridge, b))
    case Assigned(id, index) => s.(tokens := s.tokens[id := index])
    case Released(id) => s.(tokens := s.tokens - {id})
    case OnContainers(c) => s.(containers := Containers.Step(s.containers, c))
  }

  ghost function Run<S>(start: State<S>, events: seq<Event<S>>): State<S> {
    if events == [] then start else Step(Run(start, events[..|events| - 1]), events[|events| - 1])
  }

  /** What `spawnSession` does before it waits for the credentials. */
  ghost function Begin<S>(s: State<S>, warm: string, session: string, index: nat): State<S> {
    s.(tokens := (s.tokens - {warm})[session := index])
  }

  /** What it does afterwards. */
  ghost function Finish<S>(s: State<S>, warm: string, session: string): State<S> {
    s.(bridge := WsBridge.Step(s.bridge, WsBridge.Rekey(warm, session)),
       containers := Containers.Moved(s.containers, warm, session))
  }

  /** Events that leave the warm socket registered and give the warm id no other socket or token. */
  ghost predicate KeepsSocket<S>(e: Event<S>, warm: string, w: S) {
    match e
    case OnBridge(b) =>
      (match b
       case Register(_, id) => id != warm
       case Rekey(oldId, newId) => oldId != warm && newId != warm && newId != ""
       case Close(x) => x != w)
    case Assigned(id, _) => id != warm
    case _ => true
  }

  ghost predicate KeepsToken<S>(e: Event<S>, session: string) {
    (e.Assigned? ==> e.id != session) && (e.Released? ==> e.id != session)
  }

  /**
   * Events that do to the two ids' containers no more than record a spawn of the warm one: it is not
   * killed or moved, and the session gets no container of its own.
   */
  ghost predicate KeepsContainers<S>(e: Event<S>, warm: string, session: string) {
    e.OnContainers? ==>
      match e.change
      case Started(id, container) => id != session && (id == warm ==> container != "")
      case Killed(id) => id != warm
      case Rekeyed(oldId, newId) => oldId != warm && newId != warm && oldId != session && newId != session
  }

  /** A spawn of this id settles. */
  predicate Spawns<S>(e: Event<S>, id: string) {
    e.OnContainers? && e.change.Started? && e.change.id == id
  }

  /** What is recorded for the warm id after these events, if `first` was before. */
  function Recorded<S>(first: Option<string>, events: seq<Event<S>>, warm: string): Option<string> {
    if events == [] then first
    else
      var e := events[|events| - 1];
      if Spawns(e, warm) then Some(e.change.container) else Recorded(first, events[..|events| - 1], warm)
  }

  lemma {:induction false} RecordedExactly<S>(first: Option<string>, events: seq<Event<S>>, warm: string)
    ensures Recorded(first, events, warm).Some? <==>
            first.Some? || exists i :: 0 <= i < |events| && Spawns(events[i], warm)
  {
    if events != [] {
      RecordedExactly(first, events[..|events| - 1], warm);
    }
  }

  /** The warm socket between the two steps: its token is gone, the socket is still its own. */
  ghost predicate Between<S>(s: State<S>, warm: string, session: string, index: nat, w: S) {
    && WsBridge.Matched(s.bridge)
    && warm in s.bridge.connections && s.bridge.connections[warm] == w
    && warm !in s.tokens && session in s.tokens && s.tokens[session] == index
  }

  lemma StepBetween<S>(s: State<S>, e: Event<S>, warm: string, session: string, index: nat, w: S)
    requires Between(s, warm, session, index, w)
    requires KeepsSocket(e, warm, w) && KeepsToken(e, session)
    ensures Between(Step(s, e), warm, session, index, w)
  {
    if e.OnBridge? {
      WsBridge.StepMatched(s.bridge, e.event);
    }
  }

  lemma {:induction false} RunBetween<S>(s: State<S>, events: seq<Event<S>>, warm: string, session: string,
                                         index: nat, w: S)
    requires Between(s, warm, session, index, w)
    requires forall i :: 0 <= i < |events| ==> KeepsSocket(events[i], warm, w) && KeepsToken(events[i], session)
    ensures Between(Run(s, events), warm, session, index, w)
  {
    hide Between, KeepsSocket, KeepsToken, Step;
    if events != [] {
      var front := events[..|events| - 1];
      RunBetween(s, front, warm, session, index, w);
      StepBetween(Run(s, front), events[|events| - 1], warm, session, index, w);
    }
  }

  lemma StepContainers<S>(s: State<S>, e: Event<S>, warm: string, session: string)
    requires warm != session && KeepsContainers(e, warm, session)
    ensures var m, z := s.containers, Step(s, e).containers;
            && (Containers.Named(m, session).None? ==> Containers.Named(z, session).None?)
            && Containers.Named(z, warm) ==
               if Spawns(e, warm) then Some(e.change.container) else Containers.Named(m, warm)
  {
  }

  lemma {:induction false} RunContainers<S>(s: State<S>, events: seq<Event<S>>, warm: string, session: string)
    requires warm != session && Containers.Named(s.containers, session).None?
    requires forall i :: 0 <= i < |events| ==> KeepsContainers(events[i], warm, session)
    ensures var z := Run(s, events).containers;
            && Containers.Named(z, session).None?
            && Containers.Named(z, warm) == Recorded(Containers.Named(s.containers, warm), events, warm)
  {
    hide Step, KeepsContainers;
    if events != [] {
      RunContainers(s, events[..|events| - 1], warm, session);
      StepContainers(Run(s, events[..|events| - 1]), events[|events| - 1], warm, session);
    }
  }

  /**
   * The handover.  Whatever else happens while the credentials are awaited, the warm id leaves the token
   * and connection maps, and the session has its own token and the same socket, if that socket stays open.
   * The session gets a container exactly when the warm one was recorded before or its spawn settles
   * meanwhile; it is then the one recorded last, and nothing stays recorded under the warm id.
   */
  lemma HandsOver<S>(s: State<S>, warm: string, session: string, index: nat, events: seq<Event<S>>, w: S)
    requires WsBridge.Matched(s.bridge) && warm != session && session != ""
    requires warm in s.bridge.connections && s.bridge.connections[warm] == w
    requires Containers.Named(s.containers, session).None?
    requires forall i :: 0 <= i < |events| ==>
               && KeepsSocket(events[i], warm, w) && KeepsToken(events[i], session)
               && KeepsContainers(events[i], warm, session)
    ensures var z := Finish(Run(Begin(s, warm, session, index), events), warm, session);
            && warm !in z.tokens && warm !in z.bridge.connections && Containers.Named(z.containers, warm).None?
            && session in z.tokens && z.tokens[session] == index
            && session in z.bridge.connections && z.bridge.connections[session] == w && WsBridge.Active(z.bridge, w)
            && WsBridge.Matched(z.bridge)
            && Containers.Named(z.containers, session) == Recorded(Containers.Named(s.containers, warm), events, warm)
            && (Containers.Named(z.containers, session).Some? <==>
                  || Containers.Named(s.containers, warm).Some?
                  || exists i :: 0 <= i < |events| && Spawns(events[i], warm))
  {
    hide Run, KeepsSocket, KeepsToken, KeepsContainers, Recorded, Spawns, Finish;
    var b := Begin(s, warm, session, index);
    RunBetween(b, events, warm, session, index, w);
    RunContainers(b, events, warm, session);
    RecordedExactly(Containers.Named(s.containers, warm), events, warm);
    FinishesBetween(Run(b, events), warm, session, index, w);
  }

  /** The last step: whatever the warm id still has goes to the session. */
  lemma FinishesBetween<S>(s: State<S>, warm: string, session: string, index: nat, w: S)
    requires Between(s, warm, session, index, w) && warm != session && session != ""
    requires Containers.Named(s.containers, session).None?
    ensures var z := Finish(s, warm, session);
            && warm !in z.tokens && warm !in z.bridge.connections && Containers.Named(z.containers, warm).None?
            && session in z.tokens && z.tokens[session] == index
            && session in z.bridge.connections && z.bridge.connections[session] == w && WsBridge.Active(z.bridge, w)
            && WsBridge.Matched(z.bridge)
            && Containers.Named(z.containers, session) == Containers.Named(s.containers, warm)
  {
    WsBridge.StepMatched(s.bridge, WsBridge.Rekey(warm, session));
  }

  /**
   * A spawn that settles only after the last step is recorded under the warm id and stays there, where no
   * session finds it.
   */
  lemma LateSpawnStays<S>(s: State<S>, warm: string, session: string, late: seq<Event<S>>)
    requires warm != session
    requires Containers.Named(s.containers, warm).None? && Containers.Named(s.containers, session).None?
    requires forall i :: 0 <= i < |late| ==> KeepsContainers(late[i], warm, session)
    ensures var z := Run(Finish(s, warm, session), late).containers;
            && Containers.Named(z, session).None?
            && Containers.Named(z, warm) == Recorded(None, late, warm)
            && (Containers.Named(z, warm).Some? <==>
                  exists i :: 0 <= i < |late| && Spawns(late[i], warm))
  {
    hide Run, KeepsContainers, Recorded;
    RunContainers(Finish(s, warm, session), late, warm, session);
    RecordedExactly(None, late, warm);
  }

  /** The two steps leave the tokens, sockets and containers of all other ids alone. */
  lemma OthersKept<S>(s: State<S>, warm: string, session: string, index: nat, id: string)
    requires id != warm && id != session
    ensures var z := Finish(Begin(s, warm, session, index), warm, session);
            && (id in z.tokens <==> id in s.tokens) && (id in z.tokens ==> z.tokens[id] == s.tokens[id])
            && (id in z.bridge.connections <==> id in s.bridge.connections)
            && (id in z.bridge.connections ==> z.bridge.connections[id] == s.bridge.connections[id])
            && (id in z.containers <==> id in s.containers)
            && (id in z.containers ==> z.containers[id] == s.containers[id])
  {
  }

  // ----- The two steps over the managers -----

  method BeginAdoption(pool: TokenPool.TokenPool, warm: string, session: string) returns (token: string, index: nat)
    requires pool.Valid()
    modifies pool
    ensures pool.Valid() && index == old(pool.nextIndex) && index < |pool.tokens| && token == pool.tokens[index]
    ensures pool.sessionTokens == (old(pool.sessionTokens) - {warm})[session := index]
  {
    pool.Release(warm);
    token, index := pool.Assign(session);
  }

  /** The results of both rekeyings are ignored, as in the source. */
  method FinishAdoption(bridge: WsBridge.WsBridge, docker: Containers.DockerManager, warm: string, session: string)
    requires bridge.Valid()
    modifies bridge, bridge.sockets, docker
    ensures session != "" ==> bridge.Valid()
    ensures bridge.Now() == WsBridge.Step(old(bridge.Now()), WsBridge.Rekey(warm, session))
    ensures docker.containers == Containers.Moved(old(docker.containers), warm, session)
  {
    var _ := bridge.RekeyConnection(warm, session);
    var _ := docker.RekeySession(warm, session);
  }
}
