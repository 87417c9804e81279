/** Which container or pod belongs to which session, in the Docker and in the Kubernetes manager. */
module Containers {
  import opened Text

  type Map = map<string, string>

  /** A stored name counts only when it is not empty. */
  function Named(m: Map, id: string): Option<string> {
    if id in m && m[id] != "" then Some(m[id]) else None
  }

  /** Moving what `oldId` names to `newId`. */
  function Moved(m: Map, oldId: string, newId: string): Map {
    if Named(m, oldId).None? then m else (m - {oldId})[newId := m[oldId]]
  }

  /** A move keeps the name, and forgets nothing but what `newId` named before. */
  lemma MovedRows(m: Map, oldId: string, newId: string)
    requires oldId in m && m[oldId] != "" && oldId != newId
    ensures var z := Moved(m, oldId, newId);
            && oldId !in z && newId in z && z[newId] == m[oldId]
            && (forall id :: id != oldId && id != newId ==> (id in z <==> id in m) && (id in z ==> z[id] == m[id]))
  {
  }

  /** Without a name, or with the empty one, and when nothing changes hands, there is nothing to move. */
  lemma NotMoved(m: Map, oldId: string, newId: string)
    requires oldId !in m || m[oldId] == "" || oldId == newId
    ensures Moved(m, oldId, newId) == m
  {
    assert oldId in m ==> (m - {oldId})[oldId := m[oldId]] == m;
  }

  // ----- Whose container a kill stops -----

  datatype Event = Started(id: string, container: string) | Rekeyed(oldId: string, newId: string) | Killed(id: string)

  function Step(m: Map, e: Event): Map {
    match e
    case Started(id, container) => m[id := container]
    case Rekeyed(oldId, newId) => Moved(m, oldId, newId)
    case Killed(id) => m - {id}
  }

  function Run(events: seq<Event>): Map {
    if events == [] then map[] else Step(Run(events[..|events| - 1]), events[|events| - 1])
  }

  /** No two sessions have the same container. */
  ghost predicate Unshared(m: Map) {
    forall i, j :: i in m && j in m && m[i] == m[j] ==> i == j
  }

  ghost predicate StartedIn(events: seq<Event>, container: string) {
    exists i :: 0 <= i < |events| && events[i].Started? && events[i].container == container
  }

  /** Every container is started once, and has an id. */
  ghost predicate NewContainers(events: seq<Event>) {
    && (forall i :: 0 <= i < |events| && events[i].Started? ==> events[i].container != "")
    && (forall i, j :: 0 <= i < j < |events| && events[i].Started? && events[j].Started? ==>
          events[i].container != events[j].container)
  }

  lemma StepUnshared(m: Map, e: Event)
    requires Unshared(m) && (e.Started? ==> forall id :: id in m ==> m[id] != e.container)
    ensures Unshared(Step(m, e))
    ensures forall id :: id in Step(m, e) ==>
              (e.Started? && Step(m, e)[id] == e.container) || exists i :: i in m && m[i] == Step(m, e)[id]
  {
  }

  /**
   * In every run of starts, adoptions and kills no container is recorded for two sessions, and only started
   * ones are; so a kill stops its own session's container and no other's.
   */
  lemma {:induction false} NeverShared(events: seq<Event>)
    requires NewContainers(events)
    ensures Unshared(Run(events))
    ensures forall id :: id in Run(events) ==> StartedIn(events, Run(events)[id])
    ensures forall a, b :: Named(Run(events), a).Some? && Named(Run(events), a) == Named(Run(events), b) ==> a == b
  {
    hide Step;
    if events != [] {
      var front, e := events[..|events| - 1], events[|events| - 1];
      NeverShared(front);
      StepUnshared(Run(front), e);
      forall id | id in Run(events) ensures StartedIn(events, Run(events)[id]) {
        if i :| i in Run(front) && Run(front)[i] == Run(events)[id] {
          var k :| 0 <= k < |front| && front[k].Started? && front[k].container == Run(front)[i];
          assert events[k] == front[k];
        }
      }
    }
  }

  /** What inspecting a session's container reports. */
  datatype Probe = Up | Down | NotFound | Failed

  datatype Row = Row(id: string, containerId: string)

  /** The sessions whose container runs; a later row of the same id wins. */
  function Recovered(rows: seq<Row>, probe: string -> Probe): Map {
    if rows == [] then map[]
    else
      var r, front := rows[|rows| - 1], Recovered(rows[..|rows| - 1], probe);
      if probe(r.containerId).Up? then front[r.id := r.containerId] else front
  }

  lemma {:induction false} RecoveredRows(rows: seq<Row>, probe: string -> Probe, id: string)
    requires forall i, j :: 0 <= i < j < |rows| ==> rows[i].id != rows[j].id
    ensures id in Recovered(rows, probe) <==> exists r :: r in rows && r.id == id && probe(r.containerId).Up?
    ensures forall r :: r in rows && r.id == id && probe(r.containerId).Up? ==>
              Recovered(rows, probe)[id] == r.containerId
  {
    if rows != [] {
      var front, last := rows[..|rows| - 1], rows[|rows| - 1];
      RecoveredRows(front, probe, id);
      assert rows == front + [last];
      assert id == last.id ==> forall r :: r in front ==> r.id != id;
    }
  }

  datatype Found = Running | NotRunning | Missing

  /** A container that is gone is missing; any other failure counts as not running. */
  function FoundBy(p: Probe): Found {
    match p
    case Up => Running
    case NotFound => Missing
    case Down => NotRunning
    case Failed => NotRunning
  }

  /** The ids of the rows that were found this way, in order. */
  function Sorted(rows: seq<Row>, probe: string -> Probe, f: Found): seq<string> {
    if rows == [] then []
    else
      var r := rows[|rows| - 1];
      Sorted(rows[..|rows| - 1], probe, f) + (if FoundBy(probe(r.containerId)) == f then [r.id] else [])
  }

  /** Sorting loses no session and doubles none. */
  lemma {:induction false} SortedAll(rows: seq<Row>, probe: string -> Probe)
    ensures |Sorted(rows, probe, Running)| + |Sorted(rows, probe, NotRunning)| +
              |Sorted(rows, probe, Missing)| == |rows|
    ensures forall r :: r in rows ==> r.id in Sorted(rows, probe, FoundBy(probe(r.containerId)))
  {
    if rows != [] {
      SortedAll(rows[..|rows| - 1], probe);
      assert rows == rows[..|rows| - 1] + [rows[|rows| - 1]];
    }
  }

  /** A list holds exactly the sessions with such a container: a failed inspection counts as not running. */
  lemma {:induction false} SortedBy(rows: seq<Row>, probe: string -> Probe, id: string)
    ensures id in Sorted(rows, probe, Running) <==> exists r :: r in rows && r.id == id && probe(r.containerId) == Up
    ensures id in Sorted(rows, probe, NotRunning) <==>
            exists r :: r in rows && r.id == id && (probe(r.containerId) == Down || probe(r.containerId) == Failed)
    ensures id in Sorted(rows, probe, Missing) <==>
            exists r :: r in rows && r.id == id && probe(r.containerId) == NotFound
  {
    if rows != [] {
      SortedBy(rows[..|rows| - 1], probe, id);
      assert rows == rows[..|rows| - 1] + [rows[|rows| - 1]];
      assert forall r :: r in rows <==> r in rows[..|rows| - 1] || r == rows[|rows| - 1];
    }
  }

  class DockerManager {
    var containers: Map

    constructor ()
      ensures containers == map[]
    {
      containers := map[];
    }

    /** The end of a successful spawn. */
    method OnStarted(sessionId: string, containerId: string)
      modifies this
      ensures containers == old(containers)[sessionId := containerId]
      ensures containers == Step(old(containers), Started(sessionId, containerId))
    {
      containers := containers[sessionId := containerId];
    }

    /** `kill` up to its first await: without a container there is nothing to do. */
    method BeginKill(sessionId: string) returns (container: Option<string>)
      ensures container.Some? <==> sessionId in containers && containers[sessionId] != ""
      ensures container.Some? ==> container.value == containers[sessionId]
    {
      container := Named(containers, sessionId);
    }

    /** `kill` after the container has stopped, or failed to. */
    method EndKill(sessionId: string)
      modifies this
      ensures containers == old(containers) - {sessionId}
      ensures containers == Step(old(containers), Killed(sessionId))
    {
      containers := containers - {sessionId};
    }

    method RekeySession(oldId: string, newId: string) returns (found: bool)
      modifies this
      ensures containers == Moved(old(containers), oldId, newId)
      ensures containers == Step(old(containers), Rekeyed(oldId, newId))
      ensures found <==> oldId in old(containers) && old(containers)[oldId] != ""
    {
      var containerId := Named(containers, oldId);
      if containerId.None? {
        return false;
      }
      containers := containers - {oldId};
      containers := containers[newId := containerId.value];
      found := true;
    }

    /** Rebuilds the map after a restart and sorts the sessions into running, not running and missing. */
    method RecoverFromSessions(rows: seq<Row>, probe: string -> Probe)
        returns (running: seq<string>, notRunning: seq<string>, missing: seq<string>)
      modifies this
      ensures containers == Recovered(rows, probe)
      ensures running == Sorted(rows, probe, Running) && notRunning == Sorted(rows, probe, NotRunning)
      ensures missing == Sorted(rows, probe, Missing)
    {
      running, notRunning, missing := [], [], [];
      containers := map[];
      for i := 0 to |rows|
        invariant containers == Recovered(rows[..i], probe)
        invariant running == Sorted(rows[..i], probe, Running) && notRunning == Sorted(rows[..i], probe, NotRunning)
        invariant missing == Sorted(rows[..i], probe, Missing)
      {
        var r := rows[i];
        assert rows[..i + 1][..i] == rows[..i];
        match probe(r.containerId) {
          case Up =>
            containers := containers[r.id := r.containerId];
            running := running + [r.id];
          case NotFound => missing := missing + [r.id];
          case Down => notRunning := notRunning + [r.id];
          case Failed => notRunning := notRunning + [r.id];
        }
      }
      assert rows[..|rows|] == rows;
    }
  }

  /** A managed pod as the cluster lists it. */
  datatype Pod = Pod(session: string, name: string, namespace: string, running: bool)

  /** The last listed pod with this session label. */
  function PodOf(pods: seq<Pod>, session: string): Option<Pod> {
    if session == "" || pods == [] then None
    else if pods[|pods| - 1].session == session then Some(pods[|pods| - 1])
    else PodOf(pods[..|pods| - 1], session)
  }

  function NamespaceOr(p: Pod, default: string): (n: string)
    ensures default != "" ==> n != ""
  {
    if p.namespace != "" then p.namespace else default
  }

  /** The pod a session gets back: one that runs and has a name. */
  function LivePod(listed: seq<Pod>, id: string): Option<Pod> {
    var p := PodOf(listed, id);
    if p.Some? && p.value.running && p.value.name != "" then p else None
  }

  /** A session's pod is the last one listed for it; it is live when that one runs and has a name. */
  lemma {:induction false} LivePodIs(listed: seq<Pod>, id: string, k: nat)
    requires id != "" && k < |listed| && listed[k].session == id
    requires forall j :: k < j < |listed| ==> listed[j].session != id
    ensures PodOf(listed, id) == Some(listed[k])
    ensures LivePod(listed, id) == if listed[k].running && listed[k].name != "" then Some(listed[k]) else None
  {
    if k < |listed| - 1 { LivePodIs(listed[..|listed| - 1], id, k); }
  }

  /** A session without a listed pod has none. */
  lemma {:induction false} NoPodIs(listed: seq<Pod>, id: string)
    requires id == "" || forall p :: p in listed ==> p.session != id
    ensures PodOf(listed, id) == LivePod(listed, id) == None
  {
    if id != "" && listed != [] {
      assert listed[|listed| - 1] in listed;
      NoPodIs(listed[..|listed| - 1], id);
    }
  }

  function RecoveredNames(sessions: seq<string>, listed: seq<Pod>): Map {
    if sessions == [] then map[]
    else
      var id, front := sessions[|sessions| - 1], RecoveredNames(sessions[..|sessions| - 1], listed);
      var p := LivePod(listed, id);
      if p.Some? then front[id := p.value.name] else front
  }

  function RecoveredSpaces(sessions: seq<string>, listed: seq<Pod>, default: string): Map {
    if sessions == [] then map[]
    else
      var id, front := sessions[|sessions| - 1], RecoveredSpaces(sessions[..|sessions| - 1], listed, default);
      var p := LivePod(listed, id);
      if p.Some? then front[id := NamespaceOr(p.value, default)] else front
  }

  /** Exactly the sessions with a live pod come back, each with its own pod and that pod's namespace. */
  lemma {:induction false} RecoveredValid(sessions: seq<string>, listed: seq<Pod>, default: string)
    ensures var names, spaces := RecoveredNames(sessions, listed), RecoveredSpaces(sessions, listed, default);
            && names.Keys == spaces.Keys
            && (forall id :: id in names <==> id in sessions && LivePod(listed, id).Some?)
            && (forall id :: id in names ==>
                  && names[id] == LivePod(listed, id).value.name && names[id] != ""
                  && (LivePod(listed, id).value.namespace != "" ==> spaces[id] == LivePod(listed, id).value.namespace)
                  && (LivePod(listed, id).value.namespace == "" ==> spaces[id] == default))
  {
    hide PodOf;
    if sessions != [] {
      var front, last := sessions[..|sessions| - 1], sessions[|sessions| - 1];
      RecoveredValid(front, listed, default);
      assert sessions == front + [last];
    }
  }

  method PodsBySession(listed: seq<Pod>) returns (pods: map<string, Pod>)
    ensures forall id :: PodOf(listed, id) == if id in pods then Some(pods[id]) else None
  {
    pods := map[];
    for i := 0 to |listed|
      invariant forall id :: PodOf(listed[..i], id) == if id in pods then Some(pods[id]) else None
    {
      assert listed[..i + 1][..i] == listed[..i];
      if listed[i].session != "" {
        pods := pods[listed[i].session := listed[i]];
      }
    }
    assert listed[..|listed|] == listed;
  }

  class K8sManager {
    const namespace: string
    var pods: Map
    var podNamespaces: Map

    /** The two maps have the same keys, and no entry is empty. */
    ghost predicate Valid()
      reads this
    {
      && namespace != ""
      && pods.Keys == podNamespaces.Keys
      && (forall id :: id in pods ==> pods[id] != "" && podNamespaces[id] != "")
    }

    constructor (namespace: string)
      requires namespace != ""
      ensures Valid() && this.namespace == namespace && pods == map[]
    {
      this.namespace := namespace;
      pods, podNamespaces := map[], map[];
    }

    /** The end of a successful spawn; a missing or empty namespace means the default one. */
    method OnCreated(sessionId: string, podName: string, wanted: Option<string>)
      requires Valid() && podName != ""
      modifies this
      ensures Valid() && pods == old(pods)[sessionId := podName]
      ensures podNamespaces == old(podNamespaces)[sessionId :=
                if Truthy(wanted) then wanted.value else namespace]
    {
      pods := pods[sessionId := podName];
      podNamespaces := podNamespaces[sessionId := if Truthy(wanted) then wanted.value else namespace];
    }

    /** What `kill` deletes: the pod and its own namespace. */
    method BeginKill(sessionId: string) returns (pod: Option<(string, string)>)
      requires Valid()
      ensures pod == if sessionId in pods then Some((pods[sessionId], podNamespaces[sessionId])) else None
    {
      var name := Named(pods, sessionId);
      if name.None? {
        return None;
      }
      var ns := Named(podNamespaces, sessionId);
      pod := Some((name.value, if ns.Some? then ns.value else namespace));
    }

    method EndKill(sessionId: string)
      requires Valid()
      modifies this
      ensures Valid() && pods == old(pods) - {sessionId} && podNamespaces == old(podNamespaces) - {sessionId}
    {
      pods := pods - {sessionId};
      podNamespaces := podNamespaces - {sessionId};
    }

    /** The session takes over the pod together with the pod's namespace. */
    method RekeySession(oldId: string, newId: string) returns (found: bool)
      requires Valid()
      modifies this
      ensures Valid() && pods == Moved(old(pods), oldId, newId) &&
              podNamespaces == Moved(old(podNamespaces), oldId, newId)
      ensures found == (oldId in old(pods))
    {
      var podName := Named(pods, oldId);
      if podName.None? {
        return false;
      }
      var known := Named(podNamespaces, oldId);
      var ns := if known.Some? then known.value else namespace;
      pods, podNamespaces := pods - {oldId}, podNamespaces - {oldId};
      pods, podNamespaces := pods[newId := podName.value], podNamespaces[newId := ns];
      found := true;
    }

    /** Rebuilds both maps from the pods the cluster lists. */
    method RecoverFromSessions(sessions: seq<string>, listed: seq<Pod>)
        returns (running: seq<string>, notRunning: seq<string>, missing: seq<string>)
      requires namespace != ""
      modifies this
      ensures Valid()
      ensures pods == RecoveredNames(sessions, listed) && podNamespaces == RecoveredSpaces(sessions, listed, namespace)
      ensures forall id :: id in running <==> id in pods
      ensures forall id :: id in missing <==> id in sessions && PodOf(listed, id).None?
      ensures forall id :: id in notRunning <==> id in sessions && PodOf(listed, id).Some? && LivePod(listed, id).None?
      ensures |running| + |notRunning| + |missing| == |sessions|
    {
      hide PodOf;
      running, notRunning, missing := [], [], [];
      pods, podNamespaces := map[], map[];
      var podBySession := PodsBySession(listed);
      for i := 0 to |sessions|
        invariant pods == RecoveredNames(sessions[..i], listed)
        invariant podNamespaces == RecoveredSpaces(sessions[..i], listed, namespace)
        invariant forall id :: id in running <==> id in pods
        invariant forall id :: id in missing <==> id in sessions[..i] && PodOf(listed, id).None?
        invariant forall id :: id in notRunning <==>
                    id in sessions[..i] && PodOf(listed, id).Some? && LivePod(listed, id).None?
        invariant |running| + |notRunning| + |missing| == i
      {
        var id := sessions[i];
        assert sessions[..i + 1] == sessions[..i] + [id] && sessions[..i + 1][..i] == sessions[..i];
        if id !in podBySession {
          missing := missing + [id];
          continue;
        }
        var pod := podBySession[id];
        if pod.running && pod.name != "" {
          pods := pods[id := pod.name];
          podNamespaces := podNamespaces[id := NamespaceOr(pod, namespace)];
          running := running + [id];
        } else {
          notRunning := notRunning + [id];
        }
      }
      assert sessions[..|sessions|] == sessions;
      RecoveredValid(sessions, listed, namespace);
    }
  }
}
