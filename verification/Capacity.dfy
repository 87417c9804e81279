/** Making room for a session by stopping the least recently active ones. */
module Capacity {
  import opened Text

  datatype Status = Starting | Cloning | Syncing | Ready | Busy | Idle | Stopped | Error

  datatype Session = Session(status: Status, pinned: bool, lastActivity: nat)

  type Table = map<string, Session>

  predicate Active(s: Session) {
    s.status != Stopped && s.status != Error
  }

  predicate Evictable(s: Session) {
    (s.status == Ready || s.status == Idle) && !s.pinned
  }

  function ActiveIds(t: Table): set<string> {
    set id | id in t && Active(t[id])
  }

  /** `activeCount()` */
  function ActiveCount(t: Table): nat {
    |ActiveIds(t)|
  }

  /** An answer of `evictableByLru()`: the evictable sessions, least recently active first, ties in any order. */
  ghost predicate LruOrder(t: Table, ids: seq<string>) {
    && (forall id :: id in ids <==> id in t && Evictable(t[id]))
    && (forall i, j :: 0 <= i < j < |ids| ==> ids[i] != ids[j])
    && (forall i, j {:trigger ids[i], ids[j]} :: 0 <= i < j < |ids| ==>
          t[ids[i]].lastActivity <= t[ids[j]].lastActivity)
  }

  /** `updateStatus(id, "stopped")` on an existing row. */
  function Stop(t: Table, id: string, now: nat): Table {
    if id in t then t[id := t[id].(status := Stopped, lastActivity := now)] else t
  }

  function StopAll(t: Table, ids: seq<string>, now: nat): Table {
    if ids == [] then t else Stop(StopAll(t, ids[..|ids| - 1], now), ids[|ids| - 1], now)
  }

  /** Exactly the listed sessions are stopped, and no other row changes. */
  lemma {:induction false} StopAllRows(t: Table, ids: seq<string>, now: nat)
    ensures var z := StopAll(t, ids, now);
            && z.Keys == t.Keys
            && (forall id :: id in t ==>
                  z[id] == if id in ids then t[id].(status := Stopped, lastActivity := now) else t[id])
  {
    if ids != [] {
      var front, last := ids[..|ids| - 1], ids[|ids| - 1];
      StopAllRows(t, front, now);
      forall id ensures id in ids <==> id in front || id == last {
        assert ids == front + [last];
      }
    }
  }

  /** Stopping a part of the evictable sessions lowers the active count by one each. */
  lemma {:induction false} StopAllCount(t: Table, ids: seq<string>, k: nat, now: nat)
    requires LruOrder(t, ids) && k <= |ids|
    ensures ActiveCount(StopAll(t, ids[..k], now)) == ActiveCount(t) - k
  {
    hide ActiveCount;
    if k == 0 {
      assert StopAll(t, ids[..0], now) == t;
    } else {
      StopAllCount(t, ids, k - 1, now);
      assert ids[..k][..k - 1] == ids[..k - 1];
      var before, id := StopAll(t, ids[..k - 1], now), ids[k - 1];
      StopAllRows(t, ids[..k - 1], now);
      assert id in ids && id !in ids[..k - 1];
      StopOneCount(before, id, now);
    }
  }

  lemma StopOneCount(t: Table, id: string, now: nat)
    requires id in t && Active(t[id])
    ensures ActiveCount(Stop(t, id, now)) == ActiveCount(t) - 1
  {
    assert ActiveIds(Stop(t, id, now)) == ActiveIds(t) - {id};
  }

  /** How many sessions a call stops: as many as it takes to get below the maximum, or all there are. */
  function Needed(t: Table, ids: seq<string>, max: int): nat {
    var excess := ActiveCount(t) - max + 1;
    if max == 0 || excess <= 0 then 0 else Min(excess, |ids|)
  }

  /**
   * The eviction is the shortest prefix of the least recently active sessions that brings the count below
   * the maximum; if none does, everything evictable is stopped.
   */
  lemma ShortestPrefix(t: Table, ids: seq<string>, max: int, now: nat)
    requires LruOrder(t, ids) && max != 0
    ensures var k := Needed(t, ids, max);
            && (forall j :: 0 <= j < k ==> ActiveCount(StopAll(t, ids[..j], now)) >= max)
            && (ActiveCount(StopAll(t, ids[..k], now)) < max <==> ActiveCount(StopAll(t, ids, now)) < max)
            && (ActiveCount(StopAll(t, ids, now)) >= max ==> k == |ids|)
            && (ActiveCount(StopAll(t, ids, now)) == ActiveCount(t) - |ids|)
  {
    var k := Needed(t, ids, max);
    forall j | 0 <= j <= |ids| ensures ActiveCount(StopAll(t, ids[..j], now)) == ActiveCount(t) - j {
      StopAllCount(t, ids, j, now);
    }
    assert ids[..|ids|] == ids;
  }

  /** What is stopped was active no later than any evictable session that is kept. */
  lemma LeastRecentFirst(t: Table, ids: seq<string>, k: nat, stopped: string, kept: string)
    requires LruOrder(t, ids) && k <= |ids|
    requires stopped in ids[..k] && kept !in ids[..k] && kept in t && Evictable(t[kept])
    ensures Evictable(t[stopped]) && t[stopped].lastActivity <= t[kept].lastActivity
  {
    var i :| 0 <= i < k && ids[i] == stopped;
    var j :| 0 <= j < |ids| && ids[j] == kept;
    assert forall m :: 0 <= m < k ==> ids[m] in ids[..k];
  }

  /** A pinned session, and one that is neither ready nor idle, survives every eviction as it is. */
  lemma EvictionSpares(t: Table, ids: seq<string>, k: nat, now: nat, id: string)
    requires LruOrder(t, ids) && k <= |ids| && id in t
    requires t[id].pinned || t[id].status in {Starting, Cloning, Syncing, Busy, Stopped, Error}
    ensures id !in ids && id in StopAll(t, ids[..k], now) && StopAll(t, ids[..k], now)[id] == t[id]
  {
    StopAllRows(t, ids[..k], now);
    assert forall x :: x in ids[..k] ==> x in ids;
  }

  /** When everything on the list is stopped, no session that is ready or idle is left unpinned. */
  lemma NoneLeftToEvict(t: Table, ids: seq<string>, now: nat, id: string)
    requires LruOrder(t, ids) && id in StopAll(t, ids, now)
    ensures StopAll(t, ids, now)[id].status in {Ready, Idle} ==> StopAll(t, ids, now)[id].pinned
  {
    StopAllRows(t, ids, now);
  }

  /** How many sessions are neither stopped nor failed. */
  ghost function Running(t: Table): nat {
    |set id | id in t && t[id].status in {Starting, Cloning, Syncing, Ready, Busy, Idle}|
  }

  lemma ActiveIsRunning(t: Table)
    ensures ActiveCount(t) == Running(t)
  {
    assert ActiveIds(t) == set id | id in t && t[id].status in {Starting, Cloning, Syncing, Ready, Busy, Idle};
  }

  datatype Outcome = Room | CapacityReached

  /** The part of the application that stopping a session touches. */
  class AppContext {
    const maxActiveSessions: Option<int>
    var sessions: Table
    var runtime: set<string>
    var containers: map<string, string>
    var tokens: map<string, nat>

    constructor (max: Option<int>)
      ensures maxActiveSessions == max && sessions == map[] && runtime == {} && containers == map[] && tokens == map[]
    {
      maxActiveSessions, sessions, runtime, containers, tokens := max, map[], {}, map[], map[];
    }

    /** No maximum is set when it is missing or zero. */
    function Limit(): int {
      if maxActiveSessions.Some? then maxActiveSessions.value else 0
    }

    method StopSessionRuntime(id: string, now: nat)
      modifies this
      ensures sessions == Stop(old(sessions), id, now)
      ensures runtime == old(runtime) - {id} && containers == old(containers) - {id} && tokens == old(tokens) - {id}
    {
      containers := containers - {id};
      runtime := runtime - {id};
      if id in sessions {
        sessions := sessions[id := sessions[id].(status := Stopped, lastActivity := now)];
      }
      tokens := tokens - {id};
    }

    /** `lru` is the answer of the query for evictable sessions. */
    method EnsureCapacity(lru: seq<string>, now: nat) returns (outcome: Outcome)
      requires LruOrder(sessions, lru)
      modifies this
      ensures var k := Needed(old(sessions), lru, Limit()); var gone := set i | 0 <= i < k :: lru[i];
              && sessions == StopAll(old(sessions), lru[..k], now)
              && runtime == old(runtime) - gone && containers == old(containers) - gone && tokens == old(tokens) - gone
      ensures outcome == CapacityReached <==> Limit() != 0 && ActiveCount(old(sessions)) - |lru| >= Limit()
      ensures outcome == Room && Limit() != 0 ==> ActiveCount(sessions) < Limit()
      ensures maxActiveSessions in {None, Some(0)} || Running(old(sessions)) < maxActiveSessions.value ==>
                outcome == Room && sessions == old(sessions) && runtime == old(runtime)
                && containers == old(containers) && tokens == old(tokens)
      ensures maxActiveSessions !in {None, Some(0)} ==>
                (outcome == Room <==> Running(sessions) < maxActiveSessions.value)
    {
      hide LruOrder, ActiveCount, Running;
      ActiveIsRunning(sessions);
      var max := Limit();
      if max == 0 {
        return Room;
      }
      var active := ActiveCount(sessions);
      if active < max {
        return Room;
      }
      var k := 0;
      ghost var gone: set<string> := {};
      while k < |lru| && active >= max
        invariant 0 <= k <= |lru|
        invariant sessions == StopAll(old(sessions), lru[..k], now)
        invariant active == ActiveCount(sessions) == ActiveCount(old(sessions)) - k
        invariant k <= Needed(old(sessions), lru, max)
        invariant gone == set i | 0 <= i < k :: lru[i]
        invariant runtime == old(runtime) - gone && containers == old(containers) - gone && tokens == old(tokens) - gone
      {
        StopSessionRuntime(lru[k], now);
        assert lru[..k + 1][..k] == lru[..k];
        gone := gone + {lru[k]};
        k := k + 1;
        StopAllCount(old(sessions), lru, k, now);
        active := ActiveCount(sessions);
      }
      ActiveIsRunning(sessions);
      if active >= max {
        return CapacityReached;
      }
      outcome := Room;
    }
  }
}
