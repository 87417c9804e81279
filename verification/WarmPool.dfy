/** The pool of warm containers: refill, hand-out, spawn results and ready reports in any interleaving. */
module WarmPool {
  import opened Text

  datatype Profile = Profile(vault: Option<string>, agentId: Option<string>, target: int)

  /** Two optional names, with a missing one read as the empty name. */
  datatype Class = Class(vault: string, agentId: string)

  /** `containerId` is None until the container is spawned, where the source has an empty string. */
  datatype Entry = Entry(
    warmId: nat, vault: Option<string>, agentId: Option<string>, ready: bool, containerId: Option<string>)

  /**
   * `spawning` are the spawns that have not settled, `handed` the entries given out, `next` the next
   * fresh warm id.
   */
  datatype State = State(pool: seq<Entry>, refilling: bool, spawning: seq<nat>, handed: seq<nat>, next: nat)

  datatype Event =
    | Adopt(vault: Option<string>, agentId: Option<string>, connected: set<nat>)
    | Take(connected: set<nat>)
    | MarkReady(id: nat)
    | Refill
    | Spawned(id: nat, container: string)
    | SpawnFailed(id: nat)
    | RefillSettles
    | Destroyed

  const EMPTY := State([], false, [], [], 0)

  predicate SameName(wanted: Option<string>, actual: Option<string>) {
    if Truthy(wanted) then actual == wanted else !Truthy(actual)
  }

  predicate Matches(e: Entry, vault: Option<string>, agentId: Option<string>) {
    SameName(vault, e.vault) && SameName(agentId, e.agentId)
  }

  function Name(o: Option<string>): string {
    if o.Some? then o.value else ""
  }

  function ClassOf(vault: Option<string>, agentId: Option<string>): Class {
    Class(Name(vault), Name(agentId))
  }

  /** Matching is belonging to the same class, so it is an equivalence and profiles of a class share entries. */
  lemma MatchIsClass(e: Entry, vault: Option<string>, agentId: Option<string>)
    ensures Matches(e, vault, agentId) <==> ClassOf(e.vault, e.agentId) == ClassOf(vault, agentId)
  {
  }

  function CountIn(pool: seq<Entry>, c: Class): nat {
    if pool == [] then 0
    else
      var e := pool[|pool| - 1];
      CountIn(pool[..|pool| - 1], c) + (if ClassOf(e.vault, e.agentId) == c then 1 else 0)
  }

  /** The largest target among a class's profiles, and 0 without one. */
  function Target(profiles: seq<Profile>, c: Class): nat {
    if profiles == [] then 0
    else
      var p := profiles[|profiles| - 1];
      var rest := Target(profiles[..|profiles| - 1], c);
      if ClassOf(p.vault, p.agentId) == c then Max(rest, p.target) else rest
  }

  predicate Available(e: Entry, vault: Option<string>, agentId: Option<string>, connected: set<nat>) {
    e.ready && e.warmId in connected && Matches(e, vault, agentId)
  }

  /** The first available entry, or -1. */
  function FirstAvailable(pool: seq<Entry>, vault: Option<string>, agentId: Option<string>,
                           connected: set<nat>): (k: int)
    ensures -1 <= k < |pool|
    ensures k >= 0 ==> Available(pool[k], vault, agentId, connected)
    ensures forall i :: 0 <= i < (if k < 0 then |pool| else k) ==> !Available(pool[i], vault, agentId, connected)
  {
    if pool == [] then -1
    else
      var k := FirstAvailable(pool[..|pool| - 1], vault, agentId, connected);
      if k >= 0 then k
      else if Available(pool[|pool| - 1], vault, agentId, connected) then |pool| - 1
      else -1
  }

  function Without(pool: seq<Entry>, k: nat): seq<Entry>
    requires k < |pool|
  {
    pool[..k] + pool[k + 1..]
  }

  function Spawn(s: State, p: Profile): State {
    s.(pool := s.pool + [Entry(s.next, p.vault, p.agentId, false, None)],
       spawning := s.spawning + [s.next], next := s.next + 1)
  }

  function SpawnMany(s: State, p: Profile, n: nat): State {
    if n == 0 then s else Spawn(SpawnMany(s, p, n - 1), p)
  }

  function Fill(s: State, p: Profile): State {
    var current := CountIn(s.pool, ClassOf(p.vault, p.agentId));
    if p.target > current then SpawnMany(s, p, p.target - current) else s
  }

  function FillAll(s: State, profiles: seq<Profile>): State {
    if profiles == [] then s else Fill(FillAll(s, profiles[..|profiles| - 1]), profiles[|profiles| - 1])
  }

  /** The part of a refill before its first await; without a spawn there is none. */
  function Refilled(s: State, profiles: seq<Profile>): State {
    if s.refilling then s
    else
      var z := FillAll(s, profiles);
      z.(refilling := z.next > s.next)
  }

  function HandOut(s: State, k: nat, profiles: seq<Profile>): State
    requires k < |s.pool|
  {
    Refilled(s.(pool := Without(s.pool, k), handed := s.handed + [s.pool[k].warmId]), profiles)
  }

  /** The first entry with this id, or -1. */
  function IndexOfId(pool: seq<Entry>, id: nat): (k: int)
    ensures -1 <= k < |pool|
    ensures k >= 0 ==> pool[k].warmId == id
    ensures forall i :: 0 <= i < (if k < 0 then |pool| else k) ==> pool[i].warmId != id
  {
    if pool == [] then -1
    else
      var k := IndexOfId(pool[..|pool| - 1], id);
      if k >= 0 then k
      else if pool[|pool| - 1].warmId == id then |pool| - 1
      else -1
  }

  function Dropping(ids: seq<nat>, id: nat): (r: seq<nat>)
    ensures forall x :: x in r <==> x in ids && x != id
  {
    if ids == [] then [] else Dropping(ids[..|ids| - 1], id) + (if ids[|ids| - 1] == id then [] else [ids[|ids| - 1]])
  }

  predicate Enabled(s: State, e: Event) {
    match e
    case Spawned(id, _) => id in s.spawning
    case SpawnFailed(id) => id in s.spawning
    case RefillSettles => s.refilling && s.spawning == []
    case _ => true
  }

  function Step(profiles: seq<Profile>, s: State, e: Event): State {
    match e
    case Adopt(vault, agentId, connected) =>
      var k := FirstAvailable(s.pool, vault, agentId, connected);
      if k < 0 then s else HandOut(s, k, profiles)
    case Take(connected) =>
      var k := FirstAvailable(s.pool, None, None, connected);
      if k < 0 then s else HandOut(s, k, profiles)
    case MarkReady(id) =>
      var k := IndexOfId(s.pool, id);
      if k < 0 then s else s.(pool := s.pool[k := s.pool[k].(ready := true)])
    case Refill => Refilled(s, profiles)
    case Spawned(id, container) =>
      var k := IndexOfId(s.pool, id);
      var s1 := s.(spawning := Dropping(s.spawning, id));
      if k < 0 then s1 else s1.(pool := s.pool[k := s.pool[k].(containerId := Some(container))])
    case SpawnFailed(id) =>
      var k := IndexOfId(s.pool, id);
      var s1 := s.(spawning := Dropping(s.spawning, id));
      if k < 0 then s1 else s1.(pool := Without(s.pool, k))
    case RefillSettles => s.(refilling := false)
    case Destroyed => s.(pool := [])
  }

  /** The state after a list of events; an event that is not enabled does not happen. */
  function Run(profiles: seq<Profile>, events: seq<Event>): State {
    if events == [] then EMPTY
    else
      var s := Run(profiles, events[..|events| - 1]);
      var e := events[|events| - 1];
      if Enabled(s, e) then Step(profiles, s, e) else s
  }

  // ----- Counting by class -----

  lemma CountPush(pool: seq<Entry>, e: Entry, c: Class)
    ensures CountIn(pool + [e], c) == CountIn(pool, c) + (if ClassOf(e.vault, e.agentId) == c then 1 else 0)
  {
    assert (pool + [e])[..|pool|] == pool;
  }

  lemma {:induction false} CountWithout(pool: seq<Entry>, k: nat, c: Class)
    requires k < |pool|
    ensures CountIn(Without(pool, k), c) ==
                CountIn(pool, c) - (if ClassOf(pool[k].vault, pool[k].agentId) == c then 1 else 0)
  {
    hide CountIn;
    var n := |pool| - 1;
    assert pool == pool[..n] + [pool[n]];
    CountPush(pool[..n], pool[n], c);
    if k == n {
      assert Without(pool, k) == pool[..n];
    } else {
      CountWithout(pool[..n], k, c);
      assert pool[..n][..k] == pool[..k];
      assert pool[k + 1..] == pool[..n][k + 1..] + [pool[n]];
      assert Without(pool, k) == Without(pool[..n], k) + [pool[n]];
      CountPush(Without(pool[..n], k), pool[n], c);
    }
  }

  lemma {:induction false} CountUpdate(pool: seq<Entry>, k: nat, e: Entry, c: Class)
    requires k < |pool| && e.vault == pool[k].vault && e.agentId == pool[k].agentId
    ensures CountIn(pool[k := e], c) == CountIn(pool, c)
  {
    hide CountIn;
    var n := |pool| - 1;
    var changed := pool[k := e];
    assert pool == pool[..n] + [pool[n]] && changed == changed[..n] + [changed[n]];
    CountPush(pool[..n], pool[n], c);
    CountPush(changed[..n], changed[n], c);
    if k == n {
      assert changed[..n] == pool[..n];
    } else {
      CountUpdate(pool[..n], k, e, c);
      assert changed[..n] == pool[..n][k := e];
    }
  }

  lemma {:induction false} CountSpawned(s: State, p: Profile, n: nat, c: Class)
    ensures CountIn(SpawnMany(s, p, n).pool, c) ==
                CountIn(s.pool, c) + (if ClassOf(p.vault, p.agentId) == c then n else 0)
  {
    if n > 0 {
      CountSpawned(s, p, n - 1, c);
      var t := SpawnMany(s, p, n - 1);
      CountPush(t.pool, Entry(t.next, p.vault, p.agentId, false, None), c);
    }
  }

  /** Filling every profile in turn raises each class to its largest target, and lowers none. */
  lemma {:induction false} CountFilled(s: State, profiles: seq<Profile>, c: Class)
    ensures CountIn(FillAll(s, profiles).pool, c) == Max(CountIn(s.pool, c), Target(profiles, c))
  {
    if profiles != [] {
      hide CountIn, Fill;
      CountFilled(s, profiles[..|profiles| - 1], c);
      CountFill(FillAll(s, profiles[..|profiles| - 1]), profiles[|profiles| - 1], c);
    }
  }

  lemma CountFill(s: State, p: Profile, c: Class)
    ensures CountIn(Fill(s, p).pool, c) ==
            if ClassOf(p.vault, p.agentId) == c then Max(CountIn(s.pool, c), p.target) else CountIn(s.pool, c)
  {
    hide CountIn, SpawnMany;
    var current := CountIn(s.pool, ClassOf(p.vault, p.agentId));
    if p.target > current {
      CountSpawned(s, p, p.target - current, c);
    }
  }

  ghost predicate Bounded(profiles: seq<Profile>, s: State) {
    forall c :: CountIn(s.pool, c) <= Target(profiles, c)
  }

  /** A refill that is not turned away leaves every class at exactly its target. */
  lemma RefillIsExact(profiles: seq<Profile>, s: State, c: Class)
    requires Bounded(profiles, s) && !s.refilling
    ensures CountIn(Refilled(s, profiles).pool, c) == Target(profiles, c)
  {
    CountFilled(s, profiles, c);
  }

  lemma RefillBounded(profiles: seq<Profile>, s: State)
    requires Bounded(profiles, s)
    ensures Bounded(profiles, Refilled(s, profiles))
  {
    if !s.refilling {
      forall c ensures CountIn(Refilled(s, profiles).pool, c) <= Target(profiles, c) {
        RefillIsExact(profiles, s, c);
      }
    }
  }

  lemma HandOutBounded(profiles: seq<Profile>, s: State, k: nat)
    requires Bounded(profiles, s) && k < |s.pool|
    ensures Bounded(profiles, HandOut(s, k, profiles))
  {
    var t := s.(pool := Without(s.pool, k), handed := s.handed + [s.pool[k].warmId]);
    forall c ensures CountIn(t.pool, c) <= Target(profiles, c) {
      CountWithout(s.pool, k, c);
    }
    RefillBounded(profiles, t);
  }

  lemma StepBounded(profiles: seq<Profile>, s: State, e: Event)
    requires Bounded(profiles, s)
    ensures Bounded(profiles, Step(profiles, s, e))
  {
    hide CountIn, Target, FillAll;
    match e {
      case Adopt(vault, agentId, connected) =>
        var k := FirstAvailable(s.pool, vault, agentId, connected);
        if k >= 0 { HandOutBounded(profiles, s, k); }
      case Take(connected) =>
        var k := FirstAvailable(s.pool, None, None, connected);
        if k >= 0 { HandOutBounded(profiles, s, k); }
      case MarkReady(id) =>
        var k := IndexOfId(s.pool, id);
        if k >= 0 { UpdateBounded(profiles, s, k, s.pool[k].(ready := true)); }
      case Refill => RefillBounded(profiles, s);
      case Spawned(id, container) =>
        var k := IndexOfId(s.pool, id);
        if k >= 0 { UpdateBounded(profiles, s, k, s.pool[k].(containerId := Some(container))); }
      case SpawnFailed(id) =>
        var k := IndexOfId(s.pool, id);
        if k >= 0 {
          forall c ensures CountIn(Without(s.pool, k), c) <= Target(profiles, c) {
            CountWithout(s.pool, k, c);
          }
        }
      case RefillSettles =>
      case Destroyed => EmptyBounded(profiles);
    }
  }

  lemma UpdateBounded(profiles: seq<Profile>, s: State, k: nat, e: Entry)
    requires Bounded(profiles, s)
    requires k < |s.pool| && e.vault == s.pool[k].vault && e.agentId == s.pool[k].agentId
    ensures forall c :: CountIn(s.pool[k := e], c) <= Target(profiles, c)
  {
    forall c ensures CountIn(s.pool[k := e], c) <= Target(profiles, c) {
      CountUpdate(s.pool, k, e, c);
    }
  }

  lemma EmptyBounded(profiles: seq<Profile>)
    ensures forall c :: CountIn([], c) <= Target(profiles, c)
  {
  }

  /** In every interleaving no class ever holds more than its largest target. */
  lemma {:induction false} NeverOverTarget(profiles: seq<Profile>, events: seq<Event>)
    ensures Bounded(profiles, Run(profiles, events))
  {
    hide Step, Enabled;
    if events == [] {
      EmptyBounded(profiles);
    } else {
      NeverOverTarget(profiles, events[..|events| - 1]);
      StepBounded(profiles, Run(profiles, events[..|events| - 1]), events[|events| - 1]);
    }
  }

  /** In any reachable state without a refill under way, a hand-out or refill leaves every class at its target. */
  lemma FullAfterRefill(profiles: seq<Profile>, events: seq<Event>, e: Event, c: Class)
    requires var s := Run(profiles, events); !s.refilling && (e.Refill? || Step(profiles, s, e).handed != s.handed)
    ensures CountIn(Step(profiles, Run(profiles, events), e).pool, c) == Target(profiles, c)
  {
    hide Run, CountIn, Target, FillAll;
    NeverOverTarget(profiles, events);
    var s := Run(profiles, events);
    if e.Refill? {
      RefillIsExact(profiles, s, c);
    } else {
      var k := if e.Take? then FirstAvailable(s.pool, None, None, e.connected)
               else FirstAvailable(s.pool, e.vault, e.agentId, e.connected);
      var t := s.(pool := Without(s.pool, k), handed := s.handed + [s.pool[k].warmId]);
      forall d ensures CountIn(t.pool, d) <= Target(profiles, d) {
        CountWithout(s.pool, k, d);
      }
      RefillIsExact(profiles, t, c);
    }
  }

  /**
   * A hand-out leaves its class at its target if and only if no refill is under way; during a refill its
   * own one is dropped, and the class is short of the entry that was handed out.
   */
  lemma AdoptFillsExactly(profiles: seq<Profile>, events: seq<Event>,
                          vault: Option<string>, agentId: Option<string>, connected: set<nat>)
    requires FirstAvailable(Run(profiles, events).pool, vault, agentId, connected) >= 0
    ensures var s, c := Run(profiles, events), ClassOf(vault, agentId);
            var z := Step(profiles, s, Adopt(vault, agentId, connected));
            CountIn(z.pool, c) == Target(profiles, c) <==> !s.refilling
  {
    NeverOverTarget(profiles, events);
    hide Run;
    HandOutFillsExactly(profiles, Run(profiles, events), vault, agentId, connected);
  }

  lemma TakeFillsExactly(profiles: seq<Profile>, events: seq<Event>, connected: set<nat>)
    requires FirstAvailable(Run(profiles, events).pool, None, None, connected) >= 0
    ensures var s, c := Run(profiles, events), ClassOf(None, None);
            CountIn(Step(profiles, s, Take(connected)).pool, c) == Target(profiles, c) <==> !s.refilling
  {
    NeverOverTarget(profiles, events);
    hide Run;
    HandOutFillsExactly(profiles, Run(profiles, events), None, None, connected);
  }

  lemma HandOutFillsExactly(profiles: seq<Profile>, s: State,
                            vault: Option<string>, agentId: Option<string>, connected: set<nat>)
    requires Bounded(profiles, s) && FirstAvailable(s.pool, vault, agentId, connected) >= 0
    ensures var k, c := FirstAvailable(s.pool, vault, agentId, connected), ClassOf(vault, agentId);
            CountIn(HandOut(s, k, profiles).pool, c) == Target(profiles, c) <==> !s.refilling
  {
    hide CountIn, Target, FillAll, FirstAvailable;
    var k, c := FirstAvailable(s.pool, vault, agentId, connected), ClassOf(vault, agentId);
    MatchIsClass(s.pool[k], vault, agentId);
    var t := s.(pool := Without(s.pool, k), handed := s.handed + [s.pool[k].warmId]);
    forall d ensures CountIn(t.pool, d) <= Target(profiles, d) {
      CountWithout(s.pool, k, d);
    }
    CountWithout(s.pool, k, c);
    if !s.refilling {
      RefillIsExact(profiles, t, c);
    }
  }

  // ----- After a refill has settled -----

  lemma RunMore(profiles: seq<Profile>, events: seq<Event>, e: Event)
    ensures var s := Run(profiles, events);
            Run(profiles, events + [e]) == if Enabled(s, e) then Step(profiles, s, e) else s
  {
    assert (events + [e])[..|events|] == events;
  }

  /** When no spawn is pending, settling leaves the pool as it is and lets the next refill pass. */
  lemma Settles(profiles: seq<Profile>, events: seq<Event>)
    requires Run(profiles, events).spawning == []
    ensures Run(profiles, events + [RefillSettles]) == Run(profiles, events).(refilling := false)
  {
    hide Run;
    RunMore(profiles, events, RefillSettles);
  }

  /** In every run, once all spawns have settled, the next refill brings every class to its target. */
  lemma FullAfterSettling(profiles: seq<Profile>, events: seq<Event>, c: Class)
    requires Run(profiles, events).spawning == []
    ensures CountIn(Run(profiles, events + [RefillSettles] + [Refill]).pool, c) == Target(profiles, c)
  {
    hide Run, CountIn, Target;
    Settles(profiles, events);
    RunMore(profiles, events + [RefillSettles], Refill);
    FullAfterRefill(profiles, events + [RefillSettles], Refill, c);
  }

  /** And so does the next hand-out, which happens exactly when the pool has a ready, connected entry of the class. */
  lemma HandOutAfterSettling(profiles: seq<Profile>, events: seq<Event>,
                             vault: Option<string>, agentId: Option<string>, connected: set<nat>, c: Class)
    requires Run(profiles, events).spawning == []
    ensures var s := Run(profiles, events);
            var z := Run(profiles, events + [RefillSettles] + [Adopt(vault, agentId, connected)]);
            && ((exists x :: x in s.pool && x.ready && x.warmId in connected
                             && ClassOf(x.vault, x.agentId) == ClassOf(vault, agentId)) <==> z.handed != s.handed)
            && (z.handed != s.handed ==> CountIn(z.pool, c) == Target(profiles, c))
            && (vault.None? && agentId.None? ==> Run(profiles, events + [RefillSettles] + [Take(connected)]) == z)
  {
    hide Run, CountIn, Target, FillAll, FirstAvailable;
    var e, s := Adopt(vault, agentId, connected), Run(profiles, events + [RefillSettles]);
    Settles(profiles, events);
    RunMore(profiles, events + [RefillSettles], e);
    RunMore(profiles, events + [RefillSettles], Take(connected));
    AdoptHands(profiles, s, vault, agentId, connected);
    if Step(profiles, s, e).handed != s.handed {
      FullAfterRefill(profiles, events + [RefillSettles], e, c);
    }
  }

  lemma AdoptHands(profiles: seq<Profile>, s: State,
                   vault: Option<string>, agentId: Option<string>, connected: set<nat>)
    ensures (exists x :: x in s.pool && x.ready && x.warmId in connected
                         && ClassOf(x.vault, x.agentId) == ClassOf(vault, agentId)) <==>
            Step(profiles, s, Adopt(vault, agentId, connected)).handed != s.handed
  {
    hide ClassOf, Matches, FillAll;
    forall x ensures Matches(x, vault, agentId) <==> ClassOf(x.vault, x.agentId) == ClassOf(vault, agentId) {
      MatchIsClass(x, vault, agentId);
    }
    var k := FirstAvailable(s.pool, vault, agentId, connected);
    if k >= 0 {
      HandOutHands(s, k, profiles);
    }
  }

  lemma HandOutHands(s: State, k: nat, profiles: seq<Profile>)
    requires k < |s.pool|
    ensures HandOut(s, k, profiles).handed == s.handed + [s.pool[k].warmId]
  {
    FillAllHandsNothing(s.(pool := Without(s.pool, k), handed := s.handed + [s.pool[k].warmId]), profiles);
  }

  /** A refill of a pool that lacks nothing changes nothing, and is not under way afterwards. */
  lemma FullRefillIdles(profiles: seq<Profile>, s: State)
    requires !s.refilling
    requires forall p :: p in profiles ==> CountIn(s.pool, ClassOf(p.vault, p.agentId)) >= p.target
    ensures Step(profiles, s, Refill) == s
  {
    FullFills(profiles, s);
  }

  lemma {:induction false} FullFills(profiles: seq<Profile>, s: State)
    requires forall p :: p in profiles ==> CountIn(s.pool, ClassOf(p.vault, p.agentId)) >= p.target
    ensures FillAll(s, profiles) == s
  {
    if profiles != [] {
      assert profiles[|profiles| - 1] in profiles;
      FullFills(profiles[..|profiles| - 1], s);
    }
  }

  /** Two pairs of names are of one class when each name is the same, or is missing or empty in both. */
  lemma OneClass(vault: Option<string>, agentId: Option<string>, vault': Option<string>, agentId': Option<string>)
    ensures ClassOf(vault, agentId) == ClassOf(vault', agentId') <==>
              && (vault == vault' || (vault in {None, Some("")} && vault' in {None, Some("")}))
              && (agentId == agentId' || (agentId in {None, Some("")} && agentId' in {None, Some("")}))
  {
  }

  /** The target of a class is the largest target its profiles ask for, and nothing without a positive one. */
  lemma {:induction false} TargetIsLargest(profiles: seq<Profile>, c: Class)
    ensures forall p :: p in profiles && ClassOf(p.vault, p.agentId) == c ==> p.target <= Target(profiles, c)
    ensures Target(profiles, c) > 0 ==>
              exists p :: p in profiles && ClassOf(p.vault, p.agentId) == c && p.target == Target(profiles, c)
  {
    if profiles != [] {
      var front, last := profiles[..|profiles| - 1], profiles[|profiles| - 1];
      TargetIsLargest(front, c);
      assert profiles == front + [last];
      assert last in profiles;
      if p :| p in front && ClassOf(p.vault, p.agentId) == c && p.target == Target(front, c) {
        assert p in profiles;
      }
    }
  }

  // ----- Who is handed out -----

  /** Some hand-out came while the entry's runner was connected. */
  ghost predicate AskedFor(events: seq<Event>, id: nat) {
    exists k :: 0 <= k < |events| && (events[k].Adopt? || events[k].Take?) && id in events[k].connected
  }

  /** An entry is ready only after its runner reported so, and handed out only while that runner is connected. */
  ghost predicate Reported(events: seq<Event>, s: State) {
    && (forall x :: x in s.pool && x.ready ==> MarkReady(x.warmId) in events)
    && (forall id :: id in s.handed ==> MarkReady(id) in events && AskedFor(events, id))
  }

  lemma ReportedGrows(events: seq<Event>, e: Event, s: State)
    requires Reported(events, s)
    ensures Reported(events + [e], s)
  {
    forall id | AskedFor(events, id) ensures AskedFor(events + [e], id) {
      var k :| 0 <= k < |events| && (events[k].Adopt? || events[k].Take?) && id in events[k].connected;
      assert (events + [e])[k] == events[k];
    }
  }

  lemma {:induction false} SpawnedNotReady(s: State, profiles: seq<Profile>)
    ensures forall x :: x in FillAll(s, profiles).pool && x.ready ==> x in s.pool
  {
    if profiles != [] {
      hide CountIn;
      var t, p := FillAll(s, profiles[..|profiles| - 1]), profiles[|profiles| - 1];
      SpawnedNotReady(s, profiles[..|profiles| - 1]);
      var current := CountIn(t.pool, ClassOf(p.vault, p.agentId));
      if p.target > current {
        SpawnManyNotReady(t, p, p.target - current);
      }
    }
  }

  lemma {:induction false} SpawnManyNotReady(s: State, p: Profile, n: nat)
    ensures forall x :: x in SpawnMany(s, p, n).pool && x.ready ==> x in s.pool
  {
    if n > 0 {
      SpawnManyNotReady(s, p, n - 1);
    }
  }

  lemma HandOutReported(events: seq<Event>, s: State, k: nat, profiles: seq<Profile>)
    requires Reported(events, s) && k < |s.pool| && s.pool[k].ready && AskedFor(events, s.pool[k].warmId)
    ensures Reported(events, HandOut(s, k, profiles))
  {
    hide FillAll, AskedFor;
    var t := s.(pool := Without(s.pool, k), handed := s.handed + [s.pool[k].warmId]);
    SpawnedNotReady(t, profiles);
    FillAllHandsNothing(t, profiles);
  }

  lemma StepReported(profiles: seq<Profile>, events: seq<Event>, s: State, e: Event)
    requires Reported(events, s) && e in events
    ensures Reported(events, Step(profiles, s, e))
  {
    hide *;
    match e {
      case Adopt(_, _, _) => AskReported(profiles, events, s, e);
      case Take(_) => AskReported(profiles, events, s, e);
      case MarkReady(id) => ReplacedReported(profiles, events, s, e, id);
      case Spawned(id, _) => ReplacedReported(profiles, events, s, e, id);
      case _ => RestReported(profiles, events, s, e);
    }
  }

  lemma AskReported(profiles: seq<Profile>, events: seq<Event>, s: State, e: Event)
    requires Reported(events, s) && e in events && (e.Adopt? || e.Take?)
    ensures Reported(events, Step(profiles, s, e))
  {
    hide Reported, FillAll, HandOut;
    var k := if e.Take? then FirstAvailable(s.pool, None, None, e.connected)
             else FirstAvailable(s.pool, e.vault, e.agentId, e.connected);
    if k >= 0 {
      HandOutReported(events, s, k, profiles);
    }
  }

  lemma RestReported(profiles: seq<Profile>, events: seq<Event>, s: State, e: Event)
    requires Reported(events, s) && (e.Refill? || e.SpawnFailed? || e.RefillSettles? || e.Destroyed?)
    ensures Reported(events, Step(profiles, s, e))
  {
    hide FillAll, Reported, CountIn;
    if e.Refill? {
      SpawnedNotReady(s, profiles);
      FillAllHandsNothing(s, profiles);
    }
    ReportedShrinks(events, s, Step(profiles, s, e));
  }

  lemma ReportedShrinks(events: seq<Event>, s: State, z: State)
    requires Reported(events, s) && z.handed == s.handed
    requires forall x :: x in z.pool && x.ready ==> x in s.pool
    ensures Reported(events, z)
  {
    hide AskedFor;
  }

  lemma ReplacedReported(profiles: seq<Profile>, events: seq<Event>, s: State, e: Event, id: nat)
    requires Reported(events, s) && e in events && (e == MarkReady(id) || (e.Spawned? && e.id == id))
    ensures Reported(events, Step(profiles, s, e))
  {
    hide AskedFor;
    var k, z := IndexOfId(s.pool, id), Step(profiles, s, e);
    if k >= 0 {
      forall x | x in z.pool && x.ready ensures MarkReady(x.warmId) in events {
        var i :| 0 <= i < |z.pool| && z.pool[i] == x;
        assert i != k ==> s.pool[i] == x;
      }
    }
  }

  /** In every run, whatever has been handed out had reported ready and was connected when it was asked for. */
  lemma {:induction false} HandedWasReady(profiles: seq<Profile>, events: seq<Event>)
    ensures forall id :: id in Run(profiles, events).handed ==> MarkReady(id) in events && AskedFor(events, id)
    ensures Reported(events, Run(profiles, events))
  {
    hide Step, Enabled, AskedFor;
    if events != [] {
      var front, e := events[..|events| - 1], events[|events| - 1];
      assert events == front + [e];
      HandedWasReady(profiles, front);
      ReportedGrows(front, e, Run(profiles, front));
      if Enabled(Run(profiles, front), e) {
        StepReported(profiles, events, Run(profiles, front), e);
      }
    }
  }

  // ----- Identities -----

  /** The ids of the pool's entries and of the entries handed out are all different. */
  ghost predicate Identified(s: State) {
    && (forall i, j :: 0 <= i < j < |s.pool| ==> s.pool[i].warmId != s.pool[j].warmId)
    && (forall e :: e in s.pool ==> e.warmId < s.next && e.warmId !in s.handed)
    && (forall x :: x in s.handed ==> x < s.next)
    && Distinct(s.handed)
  }

  /** A container is missing exactly while its spawn is under way, and spawns are under way only during a refill. */
  ghost predicate Tracked(s: State) {
    && (forall e :: e in s.pool ==> (e.containerId.None? <==> e.warmId in s.spawning))
    && (forall x :: x in s.spawning ==> x < s.next)
    && (!s.refilling ==> s.spawning == [])
  }

  ghost predicate Sound(s: State) {
    Identified(s) && Tracked(s)
  }

  lemma SpawnSound(s: State, p: Profile)
    requires Identified(s) && Tracked(s.(refilling := true))
    ensures var z := Spawn(s, p); Identified(z) && Tracked(z.(refilling := true))
  {
  }

  lemma {:induction false} SpawnManySound(s: State, p: Profile, n: nat)
    requires Identified(s) && Tracked(s.(refilling := true))
    ensures var z := SpawnMany(s, p, n);
            Identified(z) && Tracked(z.(refilling := true)) && |z.spawning| == |s.spawning| + n && z.next == s.next + n
  {
    hide Identified, Tracked;
    if n > 0 {
      SpawnManySound(s, p, n - 1);
      SpawnSound(SpawnMany(s, p, n - 1), p);
    }
  }

  lemma {:induction false} FillAllSound(s: State, profiles: seq<Profile>)
    requires Identified(s) && Tracked(s.(refilling := true))
    ensures var z := FillAll(s, profiles);
            && Identified(z) && Tracked(z.(refilling := true))
            && |z.spawning| - |s.spawning| == z.next - s.next >= 0
  {
    hide Identified, Tracked, SpawnMany;
    if profiles != [] {
      var front, p := profiles[..|profiles| - 1], profiles[|profiles| - 1];
      FillAllSound(s, front);
      var t := FillAll(s, front);
      var current := CountIn(t.pool, ClassOf(p.vault, p.agentId));
      if p.target > current {
        SpawnManySound(t, p, p.target - current);
      }
    }
  }

  lemma RefillSound(s: State, profiles: seq<Profile>)
    requires Sound(s)
    ensures Sound(Refilled(s, profiles))
  {
    if !s.refilling {
      FillAllSound(s, profiles);
    }
  }

  lemma HandOutSound(s: State, k: nat, profiles: seq<Profile>)
    requires Sound(s) && k < |s.pool|
    ensures Sound(HandOut(s, k, profiles))
  {
    var t := s.(pool := Without(s.pool, k), handed := s.handed + [s.pool[k].warmId]);
    assert Sound(t) by {
      WithoutSound(s, k);
    }
    RefillSound(t, profiles);
  }

  lemma WithoutSound(s: State, k: nat)
    requires Sound(s) && k < |s.pool|
    ensures Sound(s.(pool := Without(s.pool, k)))
    ensures forall e :: e in Without(s.pool, k) ==> e in s.pool && e.warmId != s.pool[k].warmId
  {
    var rest := Without(s.pool, k);
    forall i | 0 <= i < |rest| ensures rest[i] == s.pool[if i < k then i else i + 1] {}
  }

  lemma ReplaceSound(s: State, k: nat, e: Entry, spawning: seq<nat>)
    requires Sound(s) && k < |s.pool| && e.warmId == s.pool[k].warmId
    requires forall x :: x in spawning ==> x in s.spawning
    requires !s.refilling ==> spawning == []
    requires e.containerId.None? <==> e.warmId in spawning
    requires forall x :: x != e.warmId ==> (x in spawning <==> x in s.spawning)
    ensures Sound(s.(pool := s.pool[k := e], spawning := spawning))
  {
    var pool := s.pool[k := e];
    forall x | x in pool ensures x == e || (x in s.pool && x.warmId != e.warmId) {
      var i :| 0 <= i < |pool| && pool[i] == x;
      assert i != k ==> s.pool[i] == x;
    }
  }

  /** A spawn settles whose entry is no longer in the pool. */
  lemma SettledSound(s: State, id: nat)
    requires Sound(s) && id in s.spawning && forall e :: e in s.pool ==> e.warmId != id
    ensures Sound(s.(spawning := Dropping(s.spawning, id)))
  {
  }

  lemma StepSound(profiles: seq<Profile>, s: State, e: Event)
    requires Sound(s) && Enabled(s, e)
    ensures Sound(Step(profiles, s, e))
  {
    match e {
      case Adopt(vault, agentId, connected) =>
        var k := FirstAvailable(s.pool, vault, agentId, connected);
        if k >= 0 { HandOutSound(s, k, profiles); }
      case Take(connected) =>
        var k := FirstAvailable(s.pool, None, None, connected);
        if k >= 0 { HandOutSound(s, k, profiles); }
      case MarkReady(id) =>
        var k := IndexOfId(s.pool, id);
        if k >= 0 { ReplaceSound(s, k, s.pool[k].(ready := true), s.spawning); }
      case Refill => RefillSound(s, profiles);
      case Spawned(id, container) =>
        var k := IndexOfId(s.pool, id);
        if k >= 0 { ReplaceSound(s, k, s.pool[k].(containerId := Some(container)), Dropping(s.spawning, id)); }
        else { SettledSound(s, id); }
      case SpawnFailed(id) =>
        var k := IndexOfId(s.pool, id);
        if k >= 0 { WithoutSound(s, k); SettledSound(s.(pool := Without(s.pool, k)), id); }
        else { SettledSound(s, id); }
      case RefillSettles =>
      case Destroyed =>
    }
  }

  /** In every interleaving no warm id is handed out twice, nor handed out while it is still in the pool. */
  lemma {:induction false} NeverTwice(profiles: seq<Profile>, events: seq<Event>)
    ensures var s := Run(profiles, events);
            Distinct(s.handed) && (forall e :: e in s.pool ==> e.warmId !in s.handed)
    ensures Sound(Run(profiles, events))
  {
    hide Step;
    if events != [] {
      var s, e := Run(profiles, events[..|events| - 1]), events[|events| - 1];
      NeverTwice(profiles, events[..|events| - 1]);
      if Enabled(s, e) {
        StepSound(profiles, s, e);
      }
    }
  }

  /**
   * An entry may be handed out before its container is recorded: this happens exactly when its spawn
   * has not settled, since the runner inside may connect and report ready first.
   */
  lemma HandedBeforeSpawned(profiles: seq<Profile>, events: seq<Event>,
                            vault: Option<string>, agentId: Option<string>, connected: set<nat>)
    ensures var s := Run(profiles, events); var k := FirstAvailable(s.pool, vault, agentId, connected);
            k >= 0 ==> (s.pool[k].containerId.None? <==> s.pool[k].warmId in s.spawning)
  {
    hide Run;
    NeverTwice(profiles, events);
  }

  lemma EarlyReady(p: Profile)
    requires p.target == 1
    ensures var events := [Refill, MarkReady(0), Adopt(p.vault, p.agentId, {0})];
            var s := Run([p], events);
            s.handed == [0] && 0 in s.spawning && s.refilling && CountIn(s.pool, ClassOf(p.vault, p.agentId)) == 0
  {
    hide *;
    var e := Entry(0, p.vault, p.agentId, false, None);
    EarlyRefill(p);
    EarlyMark(p, e);
    EarlyAdopt(p, e.(ready := true));
    var e1 := Then([p], [], Refill);
    var e2 := Then([p], e1, MarkReady(0));
    var e3 := Then([p], e2, Adopt(p.vault, p.agentId, {0}));
    assert e3 == [Refill, MarkReady(0), Adopt(p.vault, p.agentId, {0})];
    CountNone(ClassOf(p.vault, p.agentId));
  }

  lemma CountNone(c: Class)
    ensures CountIn([], c) == 0
  {
  }

  lemma EarlyRefill(p: Profile)
    requires p.target == 1
    ensures Enabled(EMPTY, Refill)
    ensures Step([p], EMPTY, Refill) == State([Entry(0, p.vault, p.agentId, false, None)], true, [0], [], 1)
  {
    assert [p][..0] == [];
    assert FillAll(EMPTY, []) == EMPTY && SpawnMany(EMPTY, p, 0) == EMPTY;
    assert Fill(EMPTY, p) == Spawn(EMPTY, p);
    hide Fill;
    assert FillAll(EMPTY, [p]) == Spawn(EMPTY, p);
  }

  lemma EarlyMark(p: Profile, e: Entry)
    requires e.warmId == 0
    ensures var s := State([e], true, [0], [], 1);
            Enabled(s, MarkReady(0)) && Step([p], s, MarkReady(0)) == s.(pool := [e.(ready := true)])
  {
    assert [e][..0] == [];
    assert IndexOfId([e], 0) == 0;
  }

  /** The refill that the hand-out asks for is dropped. */
  lemma EarlyAdopt(p: Profile, e: Entry)
    requires e.warmId == 0 && e.ready && e.vault == p.vault && e.agentId == p.agentId
    ensures var s, adopt := State([e], true, [0], [], 1), Adopt(p.vault, p.agentId, {0});
            Enabled(s, adopt) && Step([p], s, adopt) == State([], true, [0], [0], 1)
  {
    assert [e][..0] == [];
    assert FirstAvailable([e], p.vault, p.agentId, {0}) == 0;
    assert Without([e], 0) == [];
  }

  lemma Then(profiles: seq<Profile>, events: seq<Event>, e: Event) returns (longer: seq<Event>)
    ensures longer == events + [e]
    ensures events == [] ==> Run(profiles, events) == EMPTY
    ensures Run(profiles, longer) ==
            if Enabled(Run(profiles, events), e) then Step(profiles, Run(profiles, events), e)
            else Run(profiles, events)
  {
    longer := events + [e];
    assert longer[..|events|] == events;
  }

  // ----- The pool object -----

  class WarmEntry {
    const warmId: nat
    const vault: Option<string>
    const agentId: Option<string>
    var containerId: Option<string>
    var ready: bool

    constructor (warmId: nat, vault: Option<string>, agentId: Option<string>)
      ensures Value() == Entry(warmId, vault, agentId, false, None)
      ensures this.warmId == warmId
    {
      this.warmId, this.vault, this.agentId := warmId, vault, agentId;
      containerId, ready := None, false;
    }

    function Value(): Entry
      reads this
    {
      Entry(warmId, vault, agentId, ready, containerId)
    }
  }

  function Values(es: seq<WarmEntry>): (r: seq<Entry>)
    reads es
    ensures |r| == |es| && forall i :: 0 <= i < |es| ==> r[i] == es[i].Value()
  {
    seq(|es|, i requires 0 <= i < |es| reads es => es[i].Value())
  }

  class Pool {
    const profiles: seq<Profile>
    var pool: seq<WarmEntry>
    var refilling: bool
    var next: nat
    /** Every entry made so far, by id; the ids of unsettled spawns; the ids handed out. */
    ghost var made: seq<WarmEntry>
    ghost var spawning: seq<nat>
    ghost var handed: seq<nat>

    ghost function Now(): State
      reads this, pool
    {
      State(Values(pool), refilling, spawning, handed, next)
    }

    ghost predicate Known()
      reads this
    {
      && |made| == next
      && (forall i :: 0 <= i < next ==> made[i].warmId == i)
      && (forall e :: e in pool ==> e.warmId < next && e == made[e.warmId])
    }

    ghost predicate Valid()
      reads this, pool
    {
      Known() && Sound(Now())
    }

    constructor (profiles: seq<Profile>)
      ensures Valid() && Now() == EMPTY && this.profiles == profiles
    {
      this.profiles := profiles;
      pool, refilling, next := [], false, 0;
      made, spawning, handed := [], [], [];
    }

    method Adopt(vault: Option<string>, agentId: Option<string>, connected: set<nat>) returns (entry: Option<WarmEntry>)
      requires Valid()
      modifies this
      ensures Valid() && Now() == Step(profiles, old(Now()), Event.Adopt(vault, agentId, connected))
      ensures entry.None? ==> forall e :: e in pool ==> !Available(e.Value(), vault, agentId, connected)
      ensures entry.Some? ==>
                && entry.value in old(pool) && entry.value !in pool && handed == old(handed) + [entry.value.warmId]
                && Available(entry.value.Value(), vault, agentId, connected)
    {
      hide Identified, Tracked, FillAll, CountIn, FirstAvailable, Refilled;
      ghost var s := Now();
      var idx := FindReady(vault, agentId, connected);
      if idx == -1 {
        return None;
      }
      entry := Some(pool[idx]);
      Remove(idx);
      handed := handed + [entry.value.warmId];
      RefillNow();
      HandOutSound(s, idx, profiles);
      NeverBack(s, idx, profiles);
    }

    /** A generic entry is one without vault and agent. */
    method Take(connected: set<nat>) returns (entry: Option<WarmEntry>)
      requires Valid()
      modifies this
      ensures Valid() && Now() == Step(profiles, old(Now()), Event.Take(connected))
      ensures entry.Some? ==> entry.value in old(pool) && entry.value !in pool
    {
      entry := Adopt(None, None, connected);
    }

    method MarkReady(id: nat)
      requires Valid()
      modifies pool
      ensures Valid() && Now() == Step(profiles, old(Now()), Event.MarkReady(id))
    {
      hide Tracked, FillAll, CountIn, IndexOfId;
      StepSound(profiles, Now(), Event.MarkReady(id));
      var k := Find(id);
      if k >= 0 {
        ghost var changed := Values(pool)[k := Values(pool)[k].(ready := true)];
        pool[k].ready := true;
        assert Values(pool) == changed;
      }
    }

    method Refill()
      requires Valid()
      modifies this
      ensures Valid() && Now() == Step(profiles, old(Now()), Event.Refill)
    {
      StepSound(profiles, Now(), Event.Refill);
      RefillNow();
    }

    /** A spawn succeeds; the entry may have left the pool by then, and still learns its container. */
    method OnSpawned(entry: WarmEntry, container: string)
      requires Valid() && entry.warmId in spawning && entry == made[entry.warmId]
      modifies this`spawning, entry
      ensures Valid() && Now() == Step(profiles, old(Now()), Event.Spawned(entry.warmId, container))
      ensures entry.containerId == Some(container) && entry.ready == old(entry.ready)
    {
      hide Tracked, FillAll, CountIn, IndexOfId;
      StepSound(profiles, Now(), Event.Spawned(entry.warmId, container));
      ghost var k := IndexOfId(Values(pool), entry.warmId);
      ghost var changed :=
        if k < 0 then Values(pool) else Values(pool)[k := Values(pool)[k].(containerId := Some(container))];
      entry.containerId := Some(container);
      spawning := Dropping(spawning, entry.warmId);
      assert Values(pool) == changed;
    }

    method OnSpawnFailed(entry: WarmEntry)
      requires Valid() && entry.warmId in spawning && entry == made[entry.warmId]
      modifies this
      ensures Valid() && Now() == Step(profiles, old(Now()), Event.SpawnFailed(entry.warmId))
    {
      hide Identified, Tracked, FillAll, CountIn, IndexOfId;
      SpawningMade(Now(), entry.warmId);
      StepSound(profiles, Now(), Event.SpawnFailed(entry.warmId));
      var idx := IndexOf(entry);
      if idx != -1 {
        Remove(idx);
      }
      spawning := Dropping(spawning, entry.warmId);
    }

    method OnRefillSettled()
      requires Valid() && Enabled(Now(), RefillSettles)
      modifies this
      ensures Valid() && Now() == Step(profiles, old(Now()), RefillSettles)
      ensures !refilling && pool == old(pool)
    {
      refilling := false;
    }

    method OnDestroyed()
      requires Valid()
      modifies this
      ensures Valid() && Now() == Step(profiles, old(Now()), Destroyed)
      ensures pool == [] && refilling == old(refilling)
    {
      pool := [];
    }

    /** Takes entry number `k` out of the pool. */
    method Remove(k: nat)
      requires Known() && k < |pool|
      modifies this`pool
      ensures Known() && Values(pool) == Without(Values(old(pool)), k) && forall e :: e in pool ==> e in old(pool)
    {
      ghost var rest := Without(Values(pool), k);
      pool := pool[..k] + pool[k + 1..];
      assert Values(pool) == rest;
    }

    method FindReady(vault: Option<string>, agentId: Option<string>, connected: set<nat>) returns (k: int)
      ensures k == FirstAvailable(Values(pool), vault, agentId, connected)
      ensures k >= 0 ==> Available(pool[k].Value(), vault, agentId, connected)
      ensures k < 0 ==> forall e :: e in pool ==> !Available(e.Value(), vault, agentId, connected)
    {
      for i := 0 to |pool|
        invariant forall j :: 0 <= j < i ==> !Available(pool[j].Value(), vault, agentId, connected)
      {
        if Available(pool[i].Value(), vault, agentId, connected) {
          return i;
        }
      }
      k := -1;
    }

    method Find(id: nat) returns (k: int)
      ensures k == IndexOfId(Values(pool), id)
    {
      for i := 0 to |pool|
        invariant forall j :: 0 <= j < i ==> pool[j].warmId != id
      {
        if pool[i].warmId == id {
          return i;
        }
      }
      k := -1;
    }

    method IndexOf(entry: WarmEntry) returns (k: int)
      requires Known() && entry.warmId < next && entry == made[entry.warmId]
      ensures k == IndexOfId(Values(pool), entry.warmId)
    {
      for i := 0 to |pool|
        invariant forall j :: 0 <= j < i ==> pool[j] != entry
      {
        if pool[i] == entry {
          return i;
        }
      }
      k := -1;
    }

    /** `refill` up to its first await. */
    method RefillNow()
      requires Known()
      modifies this
      ensures Known() && Now() == Refilled(old(Now()), profiles)
    {
      hide Fill, CountIn, Values;
      if refilling {
        return;
      }
      refilling := true;
      ghost var s := old(Now());
      var first := next;
      for i := 0 to |profiles|
        invariant Known()
        invariant Now() == FillAll(s, profiles[..i]).(refilling := true)
      {
        assert profiles[..i + 1][..i] == profiles[..i];
        FillIgnoresFlag(FillAll(s, profiles[..i]), profiles[i]);
        RefillProfile(profiles[i]);
      }
      assert profiles[..|profiles|] == profiles;
      refilling := next > first;
    }

    method RefillProfile(p: Profile)
      requires Known()
      modifies this
      ensures Known() && Now() == Fill(old(Now()), p)
    {
      hide CountIn, Values, Known;
      ghost var s := Now();
      var needed := p.target - CountIn(Values(pool), ClassOf(p.vault, p.agentId));
      if needed > 0 {
        for j := 0 to needed
          invariant Known()
          invariant Now() == SpawnMany(s, p, j)
        {
          SpawnWarmContainer(p);
        }
      }
    }

    method SpawnWarmContainer(p: Profile)
      requires Known()
      modifies this
      ensures Known() && Now() == Spawn(old(Now()), p)
    {
      ghost var before := Values(pool);
      var entry := new WarmEntry(next, p.vault, p.agentId);
      pool := pool + [entry];
      assert Values(pool) == before + [entry.Value()];
      made := made + [entry];
      spawning := spawning + [next];
      next := next + 1;
    }
  }

  lemma FillIgnoresFlag(s: State, p: Profile)
    ensures Fill(s.(refilling := true), p) == Fill(s, p).(refilling := true)
  {
    var current := CountIn(s.pool, ClassOf(p.vault, p.agentId));
    if p.target > current {
      SpawnIgnoresFlag(s, p, p.target - current);
    }
  }

  lemma {:induction false} SpawnIgnoresFlag(s: State, p: Profile, n: nat)
    ensures SpawnMany(s.(refilling := true), p, n) == SpawnMany(s, p, n).(refilling := true)
  {
    if n > 0 {
      SpawnIgnoresFlag(s, p, n - 1);
    }
  }

  lemma SpawningMade(s: State, id: nat)
    requires Sound(s) && id in s.spawning
    ensures id < s.next
  {
  }

  lemma NeverBack(s: State, k: nat, profiles: seq<Profile>)
    requires Sound(s) && k < |s.pool|
    ensures forall e :: e in HandOut(s, k, profiles).pool ==> e.warmId != s.pool[k].warmId
    ensures HandOut(s, k, profiles).handed == s.handed + [s.pool[k].warmId]
  {
    var t := s.(pool := Without(s.pool, k), handed := s.handed + [s.pool[k].warmId]);
    assert Sound(t) by {
      WithoutSound(s, k);
    }
    RefillSound(t, profiles);
    FillAllHandsNothing(t, profiles);
  }

  lemma {:induction false} FillAllHandsNothing(s: State, profiles: seq<Profile>)
    ensures FillAll(s, profiles).handed == s.handed
  {
    if profiles != [] {
      FillAllHandsNothing(s, profiles[..|profiles| - 1]);
      var p := profiles[|profiles| - 1];
      var t := FillAll(s, profiles[..|profiles| - 1]);
      var current := CountIn(t.pool, ClassOf(p.vault, p.agentId));
      if p.target > current {
        SpawnManyHandsNothing(t, p, p.target - current);
      }
    }
  }

  lemma {:induction false} SpawnManyHandsNothing(s: State, p: Profile, n: nat)
    ensures SpawnMany(s, p, n).handed == s.handed
  {
    if n > 0 {
      SpawnManyHandsNothing(s, p, n - 1);
    }
  }
}
