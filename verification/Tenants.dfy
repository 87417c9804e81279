/** The tenant manager: a cache by API key hash in front of the tenants table. */
module Tenants {
  import opened Text

  datatype Row = Row(
    id: string, name: string, apiKeyHash: string, namespace: string, maxSessions: int,
    email: Option<string>, vault: Option<string>, gitToken: Option<string>, createdAt: nat, updatedAt: nat)

  datatype Tenant = Tenant(
    id: string, name: string, namespace: string, maxSessions: int,
    email: Option<string>, vault: Option<string>, gitToken: Option<string>, createdAt: nat, updatedAt: nat)

  datatype CreateConfig = CreateConfig(
    id: string, name: string, namespace: Option<string>, maxSessions: Option<int>,
    email: Option<string>, vault: Option<string>, gitToken: Option<string>)

  /** An absent field stays as it is; the optional columns can also be set to null. */
  datatype UpdateConfig = UpdateConfig(
    name: Option<string>, maxSessions: Option<int>,
    email: Option<Option<string>>, vault: Option<Option<string>>, gitToken: Option<Option<string>>)

  type Table = map<string, Row>

  datatype State = State(rows: Table, cache: map<string, Tenant>)

  /** `key` is the freshly drawn key and `now` the clock. */
  datatype Op =
    | Create(config: CreateConfig, key: string, now: nat)
    | Get(id: string)
    | GetByApiKey(key: string)
    | Update(id: string, change: UpdateConfig, now: nat)
    | RotateApiKey(id: string, key: string, now: nat)
    | Delete(id: string)

  datatype Answer =
    | Found(tenant: Tenant)
    | NewKey(key: string)
    | Deleted
    | Missing  // undefined, or false from `delete`
    | Thrown   // a uniqueness constraint of the table

  function ToTenant(r: Row): Tenant {
    Tenant(r.id, r.name, r.namespace, r.maxSessions, r.email, r.vault, r.gitToken, r.createdAt, r.updatedAt)
  }

  function Namespace(c: CreateConfig): string {
    if Truthy(c.namespace) then c.namespace.value else "claude-t-" + c.id
  }

  function Or<T>(o: Option<T>, d: T): T {
    if o.Some? then o.value else d
  }

  function NewRow(c: CreateConfig, h: string, now: nat): Row {
    Row(c.id, c.name, h, Namespace(c), Or(c.maxSessions, 10), c.email, c.vault, c.gitToken, now, now)
  }

  predicate NoField(u: UpdateConfig) {
    u.name.None? && u.maxSessions.None? && u.email.None? && u.vault.None? && u.gitToken.None?
  }

  function Updated(r: Row, u: UpdateConfig, now: nat): Row {
    r.(name := Or(u.name, r.name), maxSessions := Or(u.maxSessions, r.maxSessions), email := Or(u.email, r.email),
       vault := Or(u.vault, r.vault), gitToken := Or(u.gitToken, r.gitToken), updatedAt := now)
  }

  /** The table's keys: `id` is primary, `api_key_hash` and `namespace` are unique. */
  ghost predicate Keyed(rows: Table) {
    && (forall i :: i in rows ==> rows[i].id == i)
    && (forall i, j :: i in rows && j in rows && rows[i].apiKeyHash == rows[j].apiKeyHash ==> i == j)
    && (forall i, j :: i in rows && j in rows && rows[i].namespace == rows[j].namespace ==> i == j)
  }

  predicate HashTaken(rows: Table, h: string) {
    exists i :: i in rows && rows[i].apiKeyHash == h
  }

  predicate NamespaceTaken(rows: Table, n: string) {
    exists i :: i in rows && rows[i].namespace == n
  }

  /** The row with this hash; there is at most one. */
  ghost function ByHash(rows: Table, h: string): Option<Row> {
    if HashTaken(rows, h) then
      var i :| i in rows && rows[i].apiKeyHash == h;
      Some(rows[i])
    else None
  }

  lemma ByHashUnique(rows: Table, i: string)
    requires Keyed(rows) && i in rows
    ensures ByHash(rows, rows[i].apiKeyHash) == Some(rows[i])
  {
  }

  // ----- The table alone -----

  ghost function Plain(hash: string -> string, rows: Table, op: Op): (Table, Answer) {
    match op
    case Create(c, key, now) =>
      if c.id in rows || HashTaken(rows, hash(key)) || NamespaceTaken(rows, Namespace(c)) then (rows, Thrown)
      else
        var r := NewRow(c, hash(key), now);
        (rows[c.id := r], Found(ToTenant(r)))
    case Get(id) => (rows, if id in rows then Found(ToTenant(rows[id])) else Missing)
    case GetByApiKey(key) =>
      var r := ByHash(rows, hash(key));
      (rows, if r.Some? then Found(ToTenant(r.value)) else Missing)
    case Update(id, u, now) =>
      if id !in rows then (rows, Missing)
      else if NoField(u) then (rows, Found(ToTenant(rows[id])))
      else
        var r := Updated(rows[id], u, now);
        (rows[id := r], Found(ToTenant(r)))
    case RotateApiKey(id, key, now) =>
      if id !in rows then (rows, Missing)
      else if HashTaken(rows - {id}, hash(key)) then (rows, Thrown)
      else (rows[id := rows[id].(apiKeyHash := hash(key), updatedAt := now)], NewKey(key))
    case Delete(id) =>
      if id !in rows then (rows, Missing) else (rows - {id}, Deleted)
  }

  lemma PlainKeyed(hash: string -> string, rows: Table, op: Op)
    requires Keyed(rows)
    ensures Keyed(Plain(hash, rows, op).0)
  {
    match op {
      case Create(c, key, now) =>
        if Plain(hash, rows, op).1 != Thrown { PutKeyed(rows, NewRow(c, hash(key), now)); }
      case Get(id) =>
      case GetByApiKey(key) =>
      case Update(id, u, now) =>
        if id in rows && !NoField(u) { PutKeyed(rows, Updated(rows[id], u, now)); }
      case RotateApiKey(id, key, now) =>
        if id in rows && !HashTaken(rows - {id}, hash(key)) {
          assert forall j :: j in rows && j != id ==> j in rows - {id} && (rows - {id})[j] == rows[j];
          PutKeyed(rows, rows[id].(apiKeyHash := hash(key), updatedAt := now));
        }
      case Delete(id) =>
    }
  }

  /** A row that shares no hash and no namespace with another keeps the keys. */
  lemma PutKeyed(rows: Table, r: Row)
    requires Keyed(rows)
    requires forall j :: j in rows && j != r.id ==>
                   rows[j].apiKeyHash != r.apiKeyHash && rows[j].namespace != r.namespace
    ensures Keyed(rows[r.id := r])
  {
  }

  // ----- The manager: the table with its cache -----

  ghost function Step(hash: string -> string, s: State, op: Op): (State, Answer) {
    match op
    case Create(c, key, now) =>
      if c.id in s.rows || HashTaken(s.rows, hash(key)) || NamespaceTaken(s.rows, Namespace(c)) then (s, Thrown)
      else
        var r := NewRow(c, hash(key), now);
        (State(s.rows[c.id := r], s.cache[hash(key) := ToTenant(r)]), Found(ToTenant(r)))
    case Get(id) => (s, if id in s.rows then Found(ToTenant(s.rows[id])) else Missing)
    case GetByApiKey(key) =>
      if hash(key) in s.cache then (s, Found(s.cache[hash(key)]))
      else
        var r := ByHash(s.rows, hash(key));
        if r.None? then (s, Missing)
        else (s.(cache := s.cache[hash(key) := ToTenant(r.value)]), Found(ToTenant(r.value)))
    case Update(id, u, now) =>
      if id !in s.rows then (s, Missing)
      else if NoField(u) then (s, Found(ToTenant(s.rows[id])))
      else
        var r := Updated(s.rows[id], u, now);
        (State(s.rows[id := r], s.cache[r.apiKeyHash := ToTenant(r)]), Found(ToTenant(r)))
    case RotateApiKey(id, key, now) =>
      if id !in s.rows then (s, Missing)
      else
        var s1 := s.(cache := s.cache - {s.rows[id].apiKeyHash});
        if HashTaken(s.rows - {id}, hash(key)) then (s1, Thrown)
        else
          var r := s.rows[id].(apiKeyHash := hash(key), updatedAt := now);
          (State(s.rows[id := r], s1.cache[hash(key) := ToTenant(r)]), NewKey(key))
    case Delete(id) =>
      if id !in s.rows then (s, Missing)
      else (State(s.rows - {id}, s.cache - {s.rows[id].apiKeyHash}), Deleted)
  }

  ghost predicate Backed(rows: Table, h: string, t: Tenant) {
    exists i :: i in rows && rows[i].apiKeyHash == h && t == ToTenant(rows[i])
  }

  lemma BackedRow(rows: Table, i: string)
    requires i in rows
    ensures Backed(rows, rows[i].apiKeyHash, ToTenant(rows[i]))
  {
  }

  lemma BackedTaken(rows: Table, h: string, t: Tenant)
    requires Backed(rows, h, t)
    ensures HashTaken(rows, h)
  {
  }

  /** Every cached tenant is the row with that hash, as a tenant. */
  ghost predicate Coherent(s: State) {
    Keyed(s.rows) && forall h :: h in s.cache ==> Backed(s.rows, h, s.cache[h])
  }

  lemma BackedIsByHash(rows: Table, h: string, t: Tenant)
    requires Keyed(rows) && Backed(rows, h, t)
    ensures ByHash(rows, h).Some? && t == ToTenant(ByHash(rows, h).value)
  {
    var i :| i in rows && rows[i].apiKeyHash == h && t == ToTenant(rows[i]);
    ByHashUnique(rows, i);
  }

  /** Adding or replacing a row keeps every cached tenant of another row, and can cache the row itself. */
  lemma PutCoherent(s: State, r: Row)
    requires Coherent(s) && Keyed(s.rows[r.id := r])
    requires r.id in s.rows ==> s.rows[r.id].apiKeyHash == r.apiKeyHash || s.rows[r.id].apiKeyHash !in s.cache
    ensures Coherent(State(s.rows[r.id := r], s.cache[r.apiKeyHash := ToTenant(r)]))
  {
    var rows, cache := s.rows[r.id := r], s.cache[r.apiKeyHash := ToTenant(r)];
    forall h | h in cache ensures Backed(rows, h, cache[h]) {
      if h == r.apiKeyHash {
        assert rows[r.id] == r;
      } else {
        var i :| i in s.rows && s.rows[i].apiKeyHash == h && s.cache[h] == ToTenant(s.rows[i]);
        assert rows[i] == s.rows[i];
      }
    }
  }

  /** A row leaves the table when its hash has left the cache. */
  lemma DropCoherent(s: State, id: string)
    requires Coherent(s) && id in s.rows
    ensures Coherent(s.(cache := s.cache - {s.rows[id].apiKeyHash}))
    ensures Coherent(State(s.rows - {id}, s.cache - {s.rows[id].apiKeyHash}))
  {
    var rows, cache := s.rows - {id}, s.cache - {s.rows[id].apiKeyHash};
    forall h | h in cache ensures Backed(rows, h, cache[h]) {
      var i :| i in s.rows && s.rows[i].apiKeyHash == h && s.cache[h] == ToTenant(s.rows[i]);
      assert rows[i] == s.rows[i];
    }
  }

  /** Each operation keeps the cache coherent, changes the table as it would without a cache, and answers the same. */
  lemma StepCoherent(hash: string -> string, s: State, op: Op)
    requires Coherent(s)
    ensures var r := Step(hash, s, op); var p := Plain(hash, s.rows, op);
            Coherent(r.0) && r.0.rows == p.0 && r.1 == p.1
  {
    PlainKeyed(hash, s.rows, op);
    hide Keyed, Backed;
    match op {
      case Create(c, key, now) =>
        if Step(hash, s, op).1 != Thrown { PutCoherent(s, NewRow(c, hash(key), now)); }
      case Get(id) =>
      case GetByApiKey(key) => LookupCoherent(s, hash(key));
      case Update(id, u, now) =>
        if id in s.rows && !NoField(u) {
          KeyedId(s.rows, id);
          PutCoherent(s, Updated(s.rows[id], u, now));
        }
      case RotateApiKey(id, key, now) =>
        if id in s.rows {
          KeyedId(s.rows, id);
          DropCoherent(s, id);
          if !HashTaken(s.rows - {id}, hash(key)) {
            PutCoherent(s.(cache := s.cache - {s.rows[id].apiKeyHash}),
                        s.rows[id].(apiKeyHash := hash(key), updatedAt := now));
          }
        }
      case Delete(id) =>
        if id in s.rows { DropCoherent(s, id); }
    }
  }

  lemma KeyedId(rows: Table, id: string)
    requires Keyed(rows) && id in rows
    ensures rows[id].id == id
  {
  }

  lemma LookupCoherent(s: State, h: string)
    requires Coherent(s)
    ensures h in s.cache ==> ByHash(s.rows, h).Some? && s.cache[h] == ToTenant(ByHash(s.rows, h).value)
    ensures ByHash(s.rows, h).Some? ==> Coherent(s.(cache := s.cache[h := ToTenant(ByHash(s.rows, h).value)]))
  {
    if h in s.cache {
      BackedIsByHash(s.rows, h, s.cache[h]);
    }
    if ByHash(s.rows, h).Some? {
      var cache := s.cache[h := ToTenant(ByHash(s.rows, h).value)];
      forall g | g in cache ensures Backed(s.rows, g, cache[g]) {}
    }
  }

  // ----- All runs -----

  ghost function Run(hash: string -> string, start: State, ops: seq<Op>): (State, seq<Answer>) {
    if ops == [] then (start, [])
    else
      var (s, answers) := Run(hash, start, ops[..|ops| - 1]);
      var (z, a) := Step(hash, s, ops[|ops| - 1]);
      (z, answers + [a])
  }

  ghost function PlainRun(hash: string -> string, start: Table, ops: seq<Op>): (Table, seq<Answer>) {
    if ops == [] then (start, [])
    else
      var (rows, answers) := PlainRun(hash, start, ops[..|ops| - 1]);
      var (z, a) := Plain(hash, rows, ops[|ops| - 1]);
      (z, answers + [a])
  }

  /** The cache cannot be observed: every run answers as the table alone would, and leaves the same table. */
  lemma {:induction false} CacheIsInvisible(hash: string -> string, start: State, ops: seq<Op>)
    requires Coherent(start)
    ensures Run(hash, start, ops).1 == PlainRun(hash, start.rows, ops).1
    ensures Run(hash, start, ops).0.rows == PlainRun(hash, start.rows, ops).0
    ensures Coherent(Run(hash, start, ops).0)
  {
    hide Step, Plain;
    if ops != [] {
      CacheIsInvisible(hash, start, ops[..|ops| - 1]);
      StepCoherent(hash, Run(hash, start, ops[..|ops| - 1]).0, ops[|ops| - 1]);
    }
  }

  /** After a rotation or a deletion the tenant's old key opens nothing, cached or not. */
  lemma OldKeyDies(hash: string -> string, s: State, op: Op, key: string)
    requires Coherent(s) && (op.RotateApiKey? || op.Delete?) && op.id in s.rows && hash(key) == s.rows[op.id].apiKeyHash
    requires Step(hash, s, op).1.NewKey? || Step(hash, s, op).1.Deleted?
    requires op.RotateApiKey? ==> hash(op.key) != hash(key)
    ensures Step(hash, Step(hash, s, op).0, GetByApiKey(key)).1 == Missing
  {
    StepCoherent(hash, s, op);
    StepCoherent(hash, Step(hash, s, op).0, GetByApiKey(key));
  }

  /** The table and the cache never tell different stories: a tenant looked up by id is the one its key opens. */
  lemma LookupsAgree(hash: string -> string, s: State, id: string, key: string)
    requires Coherent(s) && id in s.rows && hash(key) == s.rows[id].apiKeyHash
    ensures Step(hash, s, Get(id)).1 == Step(hash, s, GetByApiKey(key)).1 == Found(ToTenant(s.rows[id]))
  {
    StepCoherent(hash, s, GetByApiKey(key));
    ByHashUnique(s.rows, id);
  }

  /** What a creation or an update returns is what both lookups answer next. */
  lemma ReadsBack(hash: string -> string, s: State, op: Op, key: string)
    requires Coherent(s) && (op.Create? || op.Update?) && Step(hash, s, op).1.Found?
    requires op.Create? ==> hash(key) == hash(op.key)
    requires op.Update? ==> hash(key) == s.rows[op.id].apiKeyHash
    ensures var (z, a) := Step(hash, s, op);
            var id := if op.Create? then op.config.id else op.id;
            Step(hash, z, Get(id)).1 == a && Step(hash, z, GetByApiKey(key)).1 == a
  {
    StepCoherent(hash, s, op);
    var (z, a) := Step(hash, s, op);
    LookupsAgree(hash, z, if op.Create? then op.config.id else op.id, key);
  }

  // ----- Field by field -----

  /** No row but that of `id` has come, gone or changed. */
  ghost predicate OthersKept(rows: Table, rows': Table, id: string) {
    forall i :: i != id ==> (i in rows <==> i in rows') && (i in rows ==> rows'[i] == rows[i])
  }

  /**
   * A creation is refused exactly when its id, its key's hash or its namespace is taken; otherwise its key opens
   * the tenant as configured, with a namespace made from the id and ten sessions where nothing is configured.
   */
  lemma CreatedTenant(hash: string -> string, s: State, c: CreateConfig, key: string, now: nat)
    requires Coherent(s)
    ensures var (z, a) := Step(hash, s, Create(c, key, now));
            var space := if c.namespace.Some? && c.namespace.value != "" then c.namespace.value else "claude-t-" + c.id;
            && (a == Thrown <==>
                  || c.id in s.rows
                  || exists i :: i in s.rows && (s.rows[i].apiKeyHash == hash(key) || s.rows[i].namespace == space))
            && (a == Thrown ==> z == s)
            && (a != Thrown ==>
                  && OthersKept(s.rows, z.rows, c.id)
                  && Step(hash, z, GetByApiKey(key)).1 == Found(Tenant(
                       c.id, c.name, space, if c.maxSessions.Some? then c.maxSessions.value else 10,
                       c.email, c.vault, c.gitToken, now, now)))
  {
    var op := Create(c, key, now);
    if Step(hash, s, op).1 != Thrown {
      ReadsBack(hash, s, op, key);
    }
  }

  /** An update changes the given fields and the time stamp of one tenant, which its key opens as before. */
  lemma UpdatedTenant(hash: string -> string, s: State, id: string, u: UpdateConfig, now: nat, key: string)
    requires Coherent(s) && id in s.rows && hash(key) == s.rows[id].apiKeyHash
    ensures u == UpdateConfig(None, None, None, None, None) ==> Step(hash, s, Update(id, u, now)).0 == s
    ensures u != UpdateConfig(None, None, None, None, None) ==>
            var z, r := Step(hash, s, Update(id, u, now)).0, s.rows[id];
            && OthersKept(s.rows, z.rows, id) && id in z.rows && z.rows[id].apiKeyHash == r.apiKeyHash
            && Step(hash, z, GetByApiKey(key)).1 == Found(Tenant(
                 r.id, if u.name.Some? then u.name.value else r.name, r.namespace,
                 if u.maxSessions.Some? then u.maxSessions.value else r.maxSessions,
                 if u.email.Some? then u.email.value else r.email,
                 if u.vault.Some? then u.vault.value else r.vault,
                 if u.gitToken.Some? then u.gitToken.value else r.gitToken, r.createdAt, now))
  {
    ReadsBack(hash, s, Update(id, u, now), key);
    KeyedId(s.rows, id);
  }

  /** A rotation is refused exactly when another tenant has the new hash; otherwise the new key opens the tenant. */
  lemma RotatedTenant(hash: string -> string, s: State, id: string, key: string, now: nat)
    requires Coherent(s) && id in s.rows
    ensures var (z, a) := Step(hash, s, RotateApiKey(id, key, now));
            && (a == Thrown <==> exists i :: i in s.rows && i != id && s.rows[i].apiKeyHash == hash(key))
            && (a == Thrown ==> z.rows == s.rows)
            && (a != Thrown ==>
                  && a == NewKey(key) && OthersKept(s.rows, z.rows, id)
                  && Step(hash, z, GetByApiKey(key)).1 == Found(ToTenant(s.rows[id]).(updatedAt := now)))
  {
    var op := RotateApiKey(id, key, now);
    assert HashTaken(s.rows - {id}, hash(key)) <==>
           exists i :: i in s.rows && i != id && s.rows[i].apiKeyHash == hash(key) by {
      if i :| i in s.rows && i != id && s.rows[i].apiKeyHash == hash(key) { assert i in s.rows - {id}; }
    }
    if Step(hash, s, op).1 != Thrown {
      StepCoherent(hash, s, op);
      KeyedId(s.rows, id);
      LookupsAgree(hash, Step(hash, s, op).0, id, key);
    }
  }

  /** What has been deleted is missing for every operation, and nothing else has changed. */
  lemma DeletedTenant(hash: string -> string, s: State, id: string, u: UpdateConfig, key: string, now: nat)
    ensures var z := Step(hash, s, Delete(id)).0;
            && OthersKept(s.rows, z.rows, id)
            && Step(hash, z, Get(id)).1 == Step(hash, z, Delete(id)).1 == Missing
            && Step(hash, z, Update(id, u, now)).1 == Step(hash, z, RotateApiKey(id, key, now)).1 == Missing
    ensures Step(hash, s, Delete(id)).1 == Deleted <==> id in s.rows
  {
  }

  // ----- The manager object -----

  class TenantManager {
    const hash: string -> string
    /** The tenants table, and the cache by key hash. */
    var rows: Table
    var cache: map<string, Tenant>

    ghost function Now(): State
      reads this
    {
      State(rows, cache)
    }

    ghost predicate Valid()
      reads this
    {
      Coherent(Now())
    }

    /** The cache is warmed with every row. */
    constructor (hash: string -> string, rows: Table)
      requires Keyed(rows)
      ensures Valid() && this.hash == hash && this.rows == rows
      ensures forall h :: h in cache <==> HashTaken(rows, h)
    {
      hide Keyed, Backed;
      this.hash := hash;
      this.rows := rows;
      var warm: map<string, Tenant> := map[];
      var left := rows;
      while left != map[]
        invariant forall i :: i in left ==> i in rows && left[i] == rows[i]
        invariant forall h :: h in warm ==> Backed(rows, h, warm[h])
        invariant forall i :: i in rows && i !in left ==> rows[i].apiKeyHash in warm
        decreases |left|
      {
        var i :| i in left;
        BackedRow(rows, i);
        warm := warm[left[i].apiKeyHash := ToTenant(left[i])];
        left := left - {i};
      }
      cache := warm;
      forall h | h in warm ensures HashTaken(rows, h) {
        BackedTaken(rows, h, warm[h]);
      }
    }

    method Create(c: CreateConfig, key: string, now: nat) returns (a: Answer)
      requires Valid()
      modifies this
      ensures Valid() && (Now(), a) == Step(hash, old(Now()), Op.Create(c, key, now))
    {
      StepCoherent(hash, Now(), Op.Create(c, key, now));
      var h := hash(key);
      if c.id in rows || HashTaken(rows, h) || NamespaceTaken(rows, Namespace(c)) {
        return Thrown;
      }
      rows := rows[c.id := NewRow(c, h, now)];
      var tenant := ToTenant(rows[c.id]);
      cache := cache[h := tenant];
      a := Found(tenant);
    }

    method Get(id: string) returns (a: Answer)
      ensures a == if id in rows then Found(ToTenant(rows[id])) else Missing
    {
      a := if id in rows then Found(ToTenant(rows[id])) else Missing;
    }

    method GetByApiKey(key: string) returns (a: Answer)
      requires Valid()
      modifies this`cache
      ensures Valid() && (Now(), a) == Step(hash, old(Now()), Op.GetByApiKey(key))
      ensures a == Plain(hash, rows, Op.GetByApiKey(key)).1
    {
      StepCoherent(hash, Now(), Op.GetByApiKey(key));
      var h := hash(key);
      if h in cache {
        return Found(cache[h]);
      }
      if !HashTaken(rows, h) {
        return Missing;
      }
      var id :| id in rows && rows[id].apiKeyHash == h;
      ByHashUnique(rows, id);
      var tenant := ToTenant(rows[id]);
      cache := cache[h := tenant];
      a := Found(tenant);
    }

    method Update(id: string, u: UpdateConfig, now: nat) returns (a: Answer)
      requires Valid()
      modifies this
      ensures Valid() && (Now(), a) == Step(hash, old(Now()), Op.Update(id, u, now))
    {
      StepCoherent(hash, Now(), Op.Update(id, u, now));
      if id !in rows {
        return Missing;
      }
      if NoField(u) {
        return Found(ToTenant(rows[id]));
      }
      rows := rows[id := Updated(rows[id], u, now)];
      var updated := ToTenant(rows[id]);
      cache := cache[rows[id].apiKeyHash := updated];
      a := Found(updated);
    }

    /** The old cache entry goes first, so a failing update leaves the old key to the table alone. */
    method RotateApiKey(id: string, key: string, now: nat) returns (a: Answer)
      requires Valid()
      modifies this
      ensures Valid() && (Now(), a) == Step(hash, old(Now()), Op.RotateApiKey(id, key, now))
    {
      StepCoherent(hash, Now(), Op.RotateApiKey(id, key, now));
      if id !in rows {
        return Missing;
      }
      cache := cache - {rows[id].apiKeyHash};
      if HashTaken(rows - {id}, hash(key)) {
        return Thrown;
      }
      rows := rows[id := rows[id].(apiKeyHash := hash(key), updatedAt := now)];
      cache := cache[hash(key) := ToTenant(rows[id])];
      a := NewKey(key);
    }

    method Delete(id: string) returns (a: Answer)
      requires Valid()
      modifies this
      ensures Valid() && (Now(), a) == Step(hash, old(Now()), Op.Delete(id))
    {
      StepCoherent(hash, Now(), Op.Delete(id));
      if id !in rows {
        return Missing;
      }
      cache := cache - {rows[id].apiKeyHash};
      rows := rows - {id};
      a := Deleted;
    }
  }
}
