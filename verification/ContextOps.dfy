/**
 * The two backends of one list interface: the transcript file, edited by relinking, and the live
 * message list of a running process, edited by splicing.
 */
module ContextOps {
  import opened Text
  import opened Transcript
  import opened ContextEdits
  import opened Truncation

  const START: string := "__start__"

  // ----- The transcript file -----

  /** The type the file gives an injected record. */
  function RecordType(role: string): string {
    if role == "system" then "system" else "user"
  }

  /** `injectMessage` on the records of the file; `None` when the record to inject after is unknown. */
  ghost function FileInject(rs: seq<Record>, after: Option<string>, n: string,
                             kind: string, payload: string): Option<seq<Record>> {
    if after == Some(START) then Some(Prepended(rs, Root(rs), n, kind, payload))
    else if !Truthy(after) then Some(rs + [NewRecord(n, Tail(rs), kind, payload)])
    else if FindFirst(rs, after.value).None? then None
    else Some(Injected(rs, after.value, n, after, kind, payload))
  }

  /** `removeMessage` on the records of the file; `None` when the uuid is unknown. */
  function FileRemove(rs: seq<Record>, target: string): Option<seq<Record>> {
    var found := FindFirst(rs, target);
    if found.None? then None else Some(Removed(rs, target, found.value))
  }

  class TranscriptFile {
    var records: seq<Record>

    constructor (records: seq<Record>)
      ensures this.records == records
    {
      this.records := records;
    }

    method RemoveMessage(target: string) returns (ok: bool)
      modifies this
      ensures ok == FileRemove(old(records), target).Some?
      ensures records == if ok then FileRemove(old(records), target).value else old(records)
    {
      var found := FindFirst(records, target);
      if found.None? {
        return false;
      }
      records := RepointAll(Without(records, target), target, found.value.parent);
      ok := true;
    }

    method InjectMessage(role: string, payload: string, afterUuid: Option<string>, newUuid: string) returns (ok: bool)
      modifies this
      ensures var kind := RecordType(role);
              && ok == FileInject(old(records), afterUuid, newUuid, kind, payload).Some?
              && records ==
                 if ok then FileInject(old(records), afterUuid, newUuid, kind, payload).value else old(records)
      ensures afterUuid == Some("__start__") ==>
                ok && records == Prepended(old(records), Root(old(records)), newUuid, RecordType(role), payload)
      ensures ok ==> records != [] && (records[|records| - 1].kind == "system" <==> role == "system")
      ensures ok && role != "system" ==> records[|records| - 1].kind == "user"
    {
      hide Chain;
      var rs, parent := records, None;
      if afterUuid == Some(START) {
        var chain := BuildChain(rs);
        if |chain| > 0 {
          var rootUuid := IdOf(chain[0]);
          for i := 0 to |rs|
            invariant |rs| == |records|
            invariant forall k :: 0 <= k < |rs| ==>
                        rs[k] == if k < i then Reroot(records[k], rootUuid, newUuid) else records[k]
          {
            if rs[i].uuid == Some(rootUuid) && !Truthy(rs[i].parent) {
              rs := rs[i := rs[i].(parent := Some(newUuid))];
            }
          }
          assert rs == RerootAll(records, rootUuid, newUuid);
        }
      } else if Truthy(afterUuid) {
        if FindFirst(rs, afterUuid.value).None? {
          return false;
        }
        parent := afterUuid;
        for i := 0 to |rs|
          invariant |rs| == |records|
          invariant forall k :: 0 <= k < |rs| ==>
                      rs[k] == if k < i then Repoint(records[k], afterUuid.value, Some(newUuid)) else records[k]
        {
          if rs[i].parent == afterUuid {
            rs := rs[i := rs[i].(parent := Some(newUuid))];
          }
        }
        assert rs == RepointAll(records, afterUuid.value, Some(newUuid));
      } else {
        var chain := BuildChain(rs);
        if |chain| > 0 {
          parent := Some(IdOf(chain[|chain| - 1]));
        }
      }
      var kind := if role == "system" then "system" else "user";
      records := rs + [NewRecord(newUuid, parent, kind, payload)];
      ok := true;
    }

    /** Truncation; on an error the file stays as it is. */
    method Truncate(n: int) returns (ok: bool)
      modifies this
      ensures ok == Truncated(old(records), n).Done?
      ensures records == if ok then Truncated(old(records), n).records else old(records)
    {
      hide Truncated;
      var res := TruncateToLastN(records, n);
      match res {
        case Done(rs) => records := rs; ok := true;
        case TypeError => ok := false;
      }
    }
  }

  // ----- The live list -----

  datatype Message = Message(uuid: Option<string>, kind: string, payload: string)

  /** An array's splice, for a start that is not negative. */
  function Splice(s: seq<Message>, start: nat, deleteCount: int, items: seq<Message>): seq<Message> {
    var a := Clamp(start, |s|);
    s[..a] + items + s[a + Clamp(deleteCount, |s| - a)..]
  }

  /** Where the first message with this uuid stands, or -1. */
  function IndexOfUuid(s: seq<Message>, uuid: string): (i: int)
    ensures -1 <= i < |s|
    ensures i >= 0 ==> s[i].uuid == Some(uuid)
    ensures forall k :: 0 <= k < (if i == -1 then |s| else i) ==> s[k].uuid != Some(uuid)
  {
    if s == [] then -1
    else if s[0].uuid == Some(uuid) then 0
    else
      var i := IndexOfUuid(s[1..], uuid);
      assert s == [s[0]] + s[1..];
      if i == -1 then -1 else i + 1
  }

  /** The list after removing the message with a uuid; `None` if there is none. */
  function ListRemove(s: seq<Message>, uuid: string): Option<seq<Message>> {
    var i := IndexOfUuid(s, uuid);
    if i == -1 then None else Some(s[..i] + s[i + 1..])
  }

  /** The list after an injection: in front, behind the named message, or at the end. */
  function ListInject(s: seq<Message>, after: Option<string>, m: Message): Option<seq<Message>> {
    if after == Some(START) then Some([m] + s)
    else if !Truthy(after) then Some(s + [m])
    else
      var i := IndexOfUuid(s, after.value);
      if i == -1 then None else Some(s[..i + 1] + [m] + s[i + 1..])
  }

  /** The list behind the socket, and the operations `executeContextOpViaIpc` and `rewind` perform on it. */
  class LiveList {
    var messages: seq<Message>

    constructor (messages: seq<Message>)
      ensures this.messages == messages
    {
      this.messages := messages;
    }

    method RemoveMessage(uuid: string) returns (ok: bool)
      modifies this
      ensures ok == ListRemove(old(messages), uuid).Some?
      ensures messages == if ok then ListRemove(old(messages), uuid).value else old(messages)
    {
      var idx := IndexOfUuid(messages, uuid);
      if idx == -1 {
        return false;
      }
      messages := Splice(messages, idx, 1, []);
      ok := true;
    }

    method InjectMessage(m: Message, afterUuid: Option<string>) returns (ok: bool)
      modifies this
      ensures ok == ListInject(old(messages), afterUuid, m).Some?
      ensures messages == if ok then ListInject(old(messages), afterUuid, m).value else old(messages)
      ensures afterUuid == Some("__start__") ==> ok && messages == [m] + old(messages)
      ensures afterUuid in {None, Some("")} ==> ok && messages == old(messages) + [m]
    {
      if afterUuid == Some(START) {
        messages := Splice(messages, 0, 0, [m]);
      } else if Truthy(afterUuid) {
        var afterIdx := IndexOfUuid(messages, afterUuid.value);
        if afterIdx == -1 {
          return false;
        }
        messages := Splice(messages, afterIdx + 1, 0, [m]);
      } else {
        messages := messages + [m];
      }
      ok := true;
    }

    /** Keeps the last `keepN` messages. */
    method Truncate(keepN: int)
      modifies this
      ensures |messages| == Clamp(keepN, |old(messages)|)
      ensures messages == old(messages)[|old(messages)| - |messages|..]
    {
      var len := |messages|;
      if len > keepN {
        messages := Splice(messages, 0, len - keepN, []);
      }
    }

    /** Drops everything behind the message with a uuid, or fails and drops nothing. */
    method Rewind(uuid: string) returns (ok: bool, removed: nat)
      modifies this
      ensures ok <==> exists m :: m in old(messages) && m.uuid == Some(uuid)
      ensures !ok ==> messages == old(messages) && removed == 0
      ensures ok ==> messages <= old(messages) && |messages| + removed == |old(messages)|
      ensures ok ==> messages != [] && messages[|messages| - 1].uuid == Some(uuid)
      ensures ok ==> forall k :: 0 <= k < |messages| - 1 ==> messages[k].uuid != Some(uuid)
    {
      var targetIdx := IndexOfUuid(messages, uuid);
      if targetIdx == -1 {
        return false, 0;
      }
      assert messages[targetIdx] in messages;
      removed := |messages| - (targetIdx + 1);
      if removed > 0 {
        messages := Splice(messages, targetIdx + 1, removed, []);
      }
      ok := true;
    }
  }

  // ----- The file stands for the list -----

  /** The log is a single branch: its uuids are `ids`, each hanging from the one before it, the first from nothing. */
  ghost predicate Branch(rs: seq<Record>, ids: seq<string>) {
    && Unique(rs) && Distinct(ids)
    && (forall r :: r in rs ==> r.uuid != Some(""))
    && (forall x :: x in Ids(rs) <==> x in ids)
    && (forall i :: 0 < i < |ids| ==> Up(rs, ids[i]) == Some(ids[i - 1]))
    && (ids != [] ==> !NamesParent(rs, ids[0]))
  }

  ghost function IndexIn(ids: seq<string>, x: string): nat {
    if x in ids then var i :| 0 <= i < |ids| && ids[i] == x; i else 0
  }

  /** A record of the branch that names a record of the log names its neighbour. */
  lemma BranchLink(rs: seq<Record>, ids: seq<string>, r: Record) returns (i: nat)
    requires Branch(rs, ids) && r in rs && Truthy(r.uuid)
    ensures i < |ids| && r.uuid == Some(ids[i]) && IndexIn(ids, ids[i]) == i
    ensures Link(rs, r.parent) == Up(rs, ids[i]) == if i == 0 then None else Some(ids[i - 1])
    ensures i == 0 ==> !Truthy(r.parent)
  {
    assert r.uuid.value in Ids(rs);
    i :| 0 <= i < |ids| && ids[i] == r.uuid.value;
    UniqueLookup(rs, r);
  }

  /** A single branch is well-formed and every uuid but the last is a parent. */
  lemma BranchRanked(rs: seq<Record>, ids: seq<string>)
    requires Branch(rs, ids)
    ensures Ranked(rs, (x: string) => IndexIn(ids, x))
    ensures forall i :: 0 <= i < |ids| ==> (ids[i] in Parents(rs) <==> i < |ids| - 1)
  {
    forall r | r in rs && Truthy(r.uuid) && Truthy(r.parent) && r.parent.value in Ids(rs)
      ensures IndexIn(ids, r.parent.value) < IndexIn(ids, r.uuid.value) && r.parent.value != ids[|ids| - 1]
    {
      var i := BranchLink(rs, ids, r);
      assert ids[i - 1] in ids;
    }
    forall i | 0 <= i < |ids| - 1 ensures ids[i] in Parents(rs) {
      assert Up(rs, ids[i + 1]) == Some(ids[i]);
      LookupFinds(rs, ids[i + 1]);
    }
    forall x | x in Parents(rs) && x in ids ensures x != ids[|ids| - 1] {
      var r :| r in rs && Truthy(r.uuid) && Truthy(r.parent) && r.parent.value == x;
    }
  }

  lemma BranchUp(rs: seq<Record>, ids: seq<string>, i: nat)
    requires Branch(rs, ids) && i < |ids|
    ensures Unique(rs) && ids[i] in Ids(rs) && Up(rs, ids[i]) == if i > 0 then Some(ids[i - 1]) else None
  {
    assert ids[i] in ids;
  }

  lemma {:induction false} BranchTrace(rs: seq<Record>, ids: seq<string>, rank: string -> nat, i: nat)
    requires Branch(rs, ids) && Ranked(rs, rank) && i < |ids|
    ensures ids[i] in Ids(rs) && Trace(rs, rank, ids[i]) == ids[..i + 1]
  {
    hide *;
    BranchUp(rs, ids, i);
    TraceIs(rs, rank, ids[i]);
    AncestorsAre(rs, rank, ids[i]);
    if i > 0 {
      BranchTrace(rs, ids, rank, i - 1);
    }
    assert ids[..i + 1] == ids[..i] + [ids[i]];
  }

  /** The chain of a single branch is its list of uuids. */
  lemma BranchChain(rs: seq<Record>, ids: seq<string>)
    requires Branch(rs, ids)
    ensures WellFormed(rs) && ChainIds(rs) == ids
  {
    var rank := (x: string) => IndexIn(ids, x);
    BranchRanked(rs, ids);
    assert Ranked(rs, rank);
    ChainIsTrace(rs, rank);
    hide Leaf, Ranked, ChainIds, Trace;
    if ids != [] {
      assert ids[|ids| - 1] in Ids(rs);
      var r :| r in rs && Truthy(r.uuid) && r.uuid.value == ids[|ids| - 1];
      assert IsLeaf(r, Parents(rs), false);
    }
    LeafFinds(rs);
    if leaf :| Leaf(rs) == Some(leaf) {
      assert leaf.uuid.value in Ids(rs);
      var i :| 0 <= i < |ids| && ids[i] == leaf.uuid.value;
      BranchTrace(rs, ids, rank, i);
      assert ids[..i + 1] == ids;
    }
  }

  /** Any well-formed log all of whose uuids are on its chain, under a root that names no parent, is a single branch. */
  lemma SingleBranch(rs: seq<Record>)
    requires WellFormed(rs) && forall r :: r in rs ==> r.uuid != Some("")
    requires forall x :: x in Ids(rs) ==> x in ChainIds(rs)
    requires !DanglingRoot(rs)
    ensures Branch(rs, ChainIds(rs))
  {
    var c, ids := Chain(rs), ChainIds(rs);
    ChainFacts(rs);
    forall i, j | 0 <= i < j < |ids| ensures ids[i] != ids[j] { assert c[i].uuid != c[j].uuid; }
    forall x | x in ids ensures x in Ids(rs) {
      var i :| 0 <= i < |ids| && ids[i] == x;
      assert c[i] in rs && c[i].uuid == Some(x);
    }
    forall i | 0 < i < |ids| ensures Up(rs, ids[i]) == Some(ids[i - 1]) {
      assert c[i] in rs && c[i - 1] in rs && c[i].parent == c[i - 1].uuid == Some(ids[i - 1]);
      UniqueLookup(rs, c[i]);
      assert ids[i - 1] in Ids(rs);
    }
  }

  // ----- One operation on both -----

  /** The list without its element number `k`. */
  function Drop(ids: seq<string>, k: nat): seq<string>
    requires k < |ids|
  {
    ids[..k] + ids[k + 1..]
  }

  /** The list with `n` put before its element number `k`. */
  function Put(ids: seq<string>, k: nat, n: string): seq<string>
    requires k <= |ids|
  {
    ids[..k] + [n] + ids[k..]
  }

  lemma Members(ids: seq<string>, k: nat, n: string)
    requires Distinct(ids)
    ensures k < |ids| ==> Distinct(Drop(ids, k)) && forall x :: x in Drop(ids, k) <==> x in ids && x != ids[k]
    ensures k <= |ids| && n !in ids ==>
              Distinct(Put(ids, k, n)) && forall x :: x in Put(ids, k, n) <==> x in ids || x == n
  {
    if k < |ids| {
      assert ids == ids[..k] + [ids[k]] + ids[k + 1..];
    }
    if k <= |ids| {
      assert ids == ids[..k] + ids[k..];
    }
  }

  lemma FoundIs(rs: seq<Record>, ids: seq<string>, x: string)
    requires Branch(rs, ids)
    ensures FindFirst(rs, x).Some? <==> x in ids
    ensures x in ids ==> x != "" && FindFirst(rs, x).value in rs && FindFirst(rs, x).value.uuid == Some(x)
  {
    FindFirstFinds(rs, x);
    if FindFirst(rs, x).Some? {
      assert x in Ids(rs);
    }
    if x in ids { assert x in Ids(rs); }
  }

  /** Removing the branch's record number `k`, be it root, middle or tail, drops it from the branch. */
  lemma RemoveOnBranch(rs: seq<Record>, ids: seq<string>, k: nat)
    requires Branch(rs, ids) && k < |ids|
    ensures FileRemove(rs, ids[k]).Some? && Branch(FileRemove(rs, ids[k]).value, Drop(ids, k))
  {
    FoundIs(rs, ids, ids[k]);
    hide Removed, Up, Lookup, Unique, Ids, Branch, FindFirst;
    RemovedBranch(rs, ids, k, FindFirst(rs, ids[k]).value);
  }

  lemma RemovedBranch(rs: seq<Record>, ids: seq<string>, k: nat, found: Record)
    requires Branch(rs, ids) && k < |ids| && found in rs && found.uuid == Some(ids[k]) && ids[k] != ""
    ensures Branch(Removed(rs, ids[k], found), Drop(ids, k))
  {
    var t, out, left := ids[k], Removed(rs, ids[k], found), Drop(ids, k);
    ParentIsAnother(rs, ids, k, found);
    Members(ids, k, "");
    RemovedRoot(rs, ids, k, found);
    RemovedNames(rs, t, found);
    RemovedIds(rs, t, found);
    hide Removed, Up, Lookup, Unique, Ids;
    forall i | 0 < i < |left| ensures Up(out, left[i]) == Some(left[i - 1]) {
      RemovedStep(rs, ids, k, found, i);
    }
  }

  lemma ParentIsAnother(rs: seq<Record>, ids: seq<string>, k: nat, found: Record)
    requires Branch(rs, ids) && k < |ids| && found in rs && found.uuid == Some(ids[k]) && ids[k] != ""
    ensures found.parent != Some(ids[k])
  {
    BranchRanked(rs, ids);
    RemovedRanked(rs, (x: string) => IndexIn(ids, x), ids[k], found);
  }

  /** After a removal every record of the rest hangs from its new neighbour. */
  lemma RemovedStep(rs: seq<Record>, ids: seq<string>, k: nat, found: Record, i: nat)
    requires Branch(rs, ids) && k < |ids| && 0 < i < |Drop(ids, k)|
    requires found in rs && found.uuid == Some(ids[k]) && ids[k] != "" && found.parent != Some(ids[k])
    ensures Up(Removed(rs, ids[k], found), Drop(ids, k)[i]) == Some(Drop(ids, k)[i - 1])
  {
    var t, left, a := ids[k], Drop(ids, k), if i < k then i else i + 1;
    assert left[i] == ids[a] && left[i - 1] == if i - 1 < k then ids[i - 1] else ids[i];
    assert ids[a] != t && ids[a] in Ids(rs) && Up(rs, ids[a]) == Some(ids[a - 1]);
    assert k > 0 ==> Up(rs, t) == Some(ids[k - 1]);
    assert a - 1 != k ==> ids[a - 1] != t;
    hide Removed, Up, Lookup, Unique, Branch, Ids;
    RemovedLinks(rs, t, found);
    assert ids[a] in Ids(Removed(rs, t, found));
  }

  lemma RemovedNames(rs: seq<Record>, t: string, found: Record)
    requires forall r :: r in rs ==> r.uuid != Some("")
    ensures forall r :: r in Removed(rs, t, found) ==> r.uuid != Some("")
  {
    WithoutKeeps(rs, t);
    RemovedAt(rs, t, found);
    hide Removed;
    forall r | r in Removed(rs, t, found) ensures r.uuid != Some("") {
      var i :| 0 <= i < |Removed(rs, t, found)| && Removed(rs, t, found)[i] == r;
      assert Without(rs, t)[i] in rs;
    }
  }

  /** Whatever comes first after a removal names no parent. */
  lemma RemovedRoot(rs: seq<Record>, ids: seq<string>, k: nat, found: Record)
    requires Branch(rs, ids) && k < |ids| && found in rs && found.uuid == Some(ids[k]) && ids[k] != ""
    ensures Drop(ids, k) != [] ==> !NamesParent(Removed(rs, ids[k], found), Drop(ids, k)[0])
  {
    var t, left := ids[k], Drop(ids, k);
    var mid, out := Without(rs, t), Removed(rs, t, found);
    if left != [] {
      LookupFinds(out, left[0]);
      WithoutKeeps(rs, t);
      if o :| Lookup(out, left[0]) == Some(o) {
        var i :| 0 <= i < |out| && out[i] == o;
        assert mid[i] in rs && mid[i].uuid == Some(left[0]);
        assert left[0] == ids[if k == 0 then 1 else 0];
        assert left[0] in Ids(rs);
        var m := BranchLink(rs, ids, mid[i]);
        UniqueLookup(rs, found);
      }
    }
  }

  /** A log grown by one record is the branch with one uuid put in, if the links say so. */
  lemma GrownBranch(rs: seq<Record>, ids: seq<string>, out: seq<Record>, n: string, k: nat)
    requires Branch(rs, ids) && Fresh(rs, n) && Grown(rs, out, n) && k <= |ids|
    requires forall i :: 0 < i < |Put(ids, k, n)| ==> Up(out, Put(ids, k, n)[i]) == Some(Put(ids, k, n)[i - 1])
    requires !NamesParent(out, Put(ids, k, n)[0])
    ensures Branch(out, Put(ids, k, n))
  {
    GrownUnique(rs, out, n);
    assert n !in ids;
    Members(ids, k, n);
    forall r | r in out ensures r.uuid != Some("") {
      var i :| 0 <= i < |out| && out[i] == r;
      if i < |rs| { assert rs[i] in rs; }
    }
  }

  /** The first record of an injected log: it keeps its parent field unless it hung from `from`. */
  lemma FieldAt(rs: seq<Record>, i: nat)
    requires Unique(rs) && i < |rs| && Truthy(rs[i].uuid)
    ensures NamesParent(rs, rs[i].uuid.value) == Truthy(rs[i].parent)
  {
    assert rs[i] in rs;
    UniqueLookup(rs, rs[i]);
  }

  lemma InjectedRoot(rs: seq<Record>, ids: seq<string>, from: string, n: string,
                     parent: Option<string>, kind: string, payload: string)
    requires Branch(rs, ids) && Fresh(rs, n) && ids != []
    ensures Unique(Injected(rs, from, n, parent, kind, payload))
    ensures from != "" ==> !NamesParent(Injected(rs, from, n, parent, kind, payload), ids[0])
  {
    var out := Injected(rs, from, n, parent, kind, payload);
    GrownUnique(rs, out, n);
    assert ids[0] in Ids(rs);
    var i :| 0 <= i < |rs| && Truthy(rs[i].uuid) && rs[i].uuid.value == ids[0];
    FieldAt(rs, i);
    FieldAt(out, i);
  }

  lemma InjectAfterOnBranch(rs: seq<Record>, ids: seq<string>, k: nat, n: string, kind: string, payload: string)
    requires Branch(rs, ids) && Fresh(rs, n) && k < |ids|
    ensures Branch(Injected(rs, ids[k], n, Some(ids[k]), kind, payload), Put(ids, k + 1, n))
  {
    var a := ids[k];
    assert a in Ids(rs) && n !in Ids(rs);
    var out, more := Injected(rs, a, n, Some(a), kind, payload), Put(ids, k + 1, n);
    InjectedLinks(rs, a, n, Some(a), kind, payload);
    InjectedRoot(rs, ids, a, n, Some(a), kind, payload);
    forall i | 0 < i < |more| ensures Up(out, more[i]) == Some(more[i - 1]) {
      if i != k + 1 {
        var j := if i <= k then i else i - 1;
        assert more[i] == ids[j] && ids[j] in ids;
      }
    }
    GrownBranch(rs, ids, out, n, k + 1);
  }

  /** Nothing names a fresh uuid, so repointing from it changes no record. */
  lemma PlainIsInjected(rs: seq<Record>, n: string, parent: Option<string>, kind: string, payload: string)
    requires Fresh(rs, n)
    ensures rs + [NewRecord(n, parent, kind, payload)] == Injected(rs, n, n, parent, kind, payload)
  {
    forall i | 0 <= i < |rs| ensures rs[i] == Repoint(rs[i], n, Some(n)) { assert rs[i] in rs; }
  }

  lemma BranchTail(rs: seq<Record>, ids: seq<string>)
    requires Branch(rs, ids)
    ensures Unique(rs) && Tail(rs) == if ids == [] then None else Some(ids[|ids| - 1])
  {
    BranchChain(rs, ids);
  }

  lemma InjectPlainOnBranch(rs: seq<Record>, ids: seq<string>, n: string, kind: string, payload: string)
    requires Branch(rs, ids) && Fresh(rs, n)
    ensures Branch(rs + [NewRecord(n, Tail(rs), kind, payload)], Put(ids, |ids|, n))
  {
    hide *;
    var out, more := Injected(rs, n, n, Tail(rs), kind, payload), ids + [n];
    PlainIsInjected(rs, n, Tail(rs), kind, payload);
    PutLast(ids, n);
    BranchTail(rs, ids);
    if ids != [] { BranchUp(rs, ids, |ids| - 1); }
    InjectedLinks(rs, n, n, Tail(rs), kind, payload);
    forall i | 0 < i < |more| ensures Up(out, more[i]) == Some(more[i - 1]) {
      if i < |ids| {
        BranchUp(rs, ids, i);
        BranchUp(rs, ids, i - 1);
      }
    }
    PlainRoot(rs, ids, n, kind, payload);
    GrownBranch(rs, ids, out, n, |ids|);
  }

  lemma PutLast(ids: seq<string>, n: string)
    ensures Put(ids, |ids|, n) == ids + [n]
  {
  }

  lemma PlainRoot(rs: seq<Record>, ids: seq<string>, n: string, kind: string, payload: string)
    requires Branch(rs, ids) && Fresh(rs, n)
    ensures !NamesParent(Injected(rs, n, n, Tail(rs), kind, payload), (ids + [n])[0])
  {
    BranchTail(rs, ids);
    if ids != [] {
      InjectedRoot(rs, ids, n, n, Tail(rs), kind, payload);
    } else {
      InjectedLinks(rs, n, n, Tail(rs), kind, payload);
      FieldAt(Injected(rs, n, n, Tail(rs), kind, payload), |rs|);
    }
  }

  lemma InjectStartOnBranch(rs: seq<Record>, ids: seq<string>, n: string, kind: string, payload: string)
    requires Branch(rs, ids) && Fresh(rs, n)
    ensures Branch(Prepended(rs, Root(rs), n, kind, payload), Put(ids, 0, n))
  {
    BranchChain(rs, ids);
    hide ChainIds;
    var out, more := Prepended(rs, Root(rs), n, kind, payload), Put(ids, 0, n);
    assert n !in Ids(rs);
    if ids != [] {
      assert ids[0] in ids;
      assert Up(rs, ids[0]).None?;
      PrependedLinks(rs, ids[0], n, kind, payload);
      forall i | 0 < i < |more| ensures Up(out, more[i]) == Some(more[i - 1]) {
        assert more[i] == ids[i - 1] && ids[i - 1] in ids;
      }
    } else {
      GrownUnique(rs, out, n);
    }
    FieldAt(out, |rs|);
    GrownBranch(rs, ids, out, n, 0);
  }

  // ----- Every run of operations -----

  datatype Op =
    | Remove(uuid: string)
    | Inject(after: Option<string>, newUuid: string, role: string, payload: string)

  ghost function FileStep(rs: seq<Record>, op: Op): Option<seq<Record>> {
    match op
    case Remove(u) => FileRemove(rs, u)
    case Inject(after, n, role, payload) => FileInject(rs, after, n, RecordType(role), payload)
  }

  function ListStep(s: seq<Message>, op: Op): Option<seq<Message>> {
    match op
    case Remove(u) => ListRemove(s, u)
    case Inject(after, n, role, payload) => ListInject(s, after, Message(Some(n), role, payload))
  }

  /** The uuid an operation brings in is new to the log. */
  ghost predicate NewHere(rs: seq<Record>, op: Op) {
    op.Inject? ==> Fresh(rs, op.newUuid)
  }

  /** The live list's uuids, in order. */
  function ListIds(s: seq<Message>): (ids: seq<string>)
    ensures |ids| == |s|
  {
    seq(|s|, i requires 0 <= i < |s| => if s[i].uuid.Some? then s[i].uuid.value else "")
  }

  /** File and list agree: the file is a single branch whose uuids are those of the list. */
  ghost predicate Agree(rs: seq<Record>, s: seq<Message>) {
    && (forall i :: 0 <= i < |s| ==> s[i].uuid.Some?)
    && Branch(rs, ListIds(s))
  }

  lemma IndexOfUuidIs(s: seq<Message>, x: string)
    requires forall i :: 0 <= i < |s| ==> s[i].uuid.Some?
    ensures var i := IndexOfUuid(s, x); (i == -1 <==> x !in ListIds(s)) && (i >= 0 ==> ListIds(s)[i] == x)
  {
    var i, ids := IndexOfUuid(s, x), ListIds(s);
    if i == -1 {
      forall k | 0 <= k < |s| ensures ids[k] != x { assert s[k].uuid != Some(x); }
    } else {
      assert ids[i] == x;
    }
  }

  lemma RemoveAgrees(rs: seq<Record>, s: seq<Message>, u: string)
    requires Agree(rs, s)
    ensures FileRemove(rs, u).Some? <==> ListRemove(s, u).Some?
    ensures FileRemove(rs, u).Some? ==> Agree(FileRemove(rs, u).value, ListRemove(s, u).value)
  {
    hide Branch, Removed, FindFirst, IndexOfUuid;
    var ids, k := ListIds(s), IndexOfUuid(s, u);
    FoundIs(rs, ids, u);
    IndexOfUuidIs(s, u);
    if k >= 0 {
      RemoveOnBranch(rs, ids, k);
      assert ListIds(s[..k] + s[k + 1..]) == Drop(ids, k);
    }
  }

  lemma PutIds(s: seq<Message>, k: nat, m: Message)
    requires k <= |s| && m.uuid.Some?
    ensures ListIds(s[..k] + [m] + s[k..]) == Put(ListIds(s), k, m.uuid.value)
  {
  }

  lemma InjectAgrees(rs: seq<Record>, s: seq<Message>, after: Option<string>, n: string,
                     kind: string, role: string, payload: string)
    requires Agree(rs, s) && Fresh(rs, n)
    ensures var f, l := FileInject(rs, after, n, kind, payload), ListInject(s, after, Message(Some(n), role, payload));
            && (f.Some? <==> l.Some?)
            && (f.Some? ==> Agree(f.value, l.value))
  {
    hide Branch, Prepended, Injected, FindFirst, IndexOfUuid, ListIds, Put, Fresh, Root, Tail;
    var m, ids := Message(Some(n), role, payload), ListIds(s);
    if after == Some(START) {
      InjectStartOnBranch(rs, ids, n, kind, payload);
      PutIds(s, 0, m);
      assert s[..0] + [m] + s[0..] == [m] + s;
    } else if !Truthy(after) {
      InjectPlainOnBranch(rs, ids, n, kind, payload);
      PutIds(s, |s|, m);
      assert s[..|s|] + [m] + s[|s|..] == s + [m];
    } else {
      var k := IndexOfUuid(s, after.value);
      FoundIs(rs, ids, after.value);
      IndexOfUuidIs(s, after.value);
      if k >= 0 {
        InjectAfterOnBranch(rs, ids, k, n, kind, payload);
        PutIds(s, k + 1, m);
      }
    }
  }

  /** One operation fails on both backends or on neither, and keeps them in agreement. */
  lemma StepAgrees(rs: seq<Record>, s: seq<Message>, op: Op)
    requires Agree(rs, s) && NewHere(rs, op)
    ensures FileStep(rs, op).Some? <==> ListStep(s, op).Some?
    ensures FileStep(rs, op).Some? ==> Agree(FileStep(rs, op).value, ListStep(s, op).value)
  {
    hide Agree, FileRemove, FileInject, ListRemove, ListInject;
    match op {
      case Remove(u) => RemoveAgrees(rs, s, u);
      case Inject(after, n, role, payload) => InjectAgrees(rs, s, after, n, RecordType(role), role, payload);
    }
  }

  /** The file after a run of operations; one that fails leaves it alone. */
  ghost function FileRun(rs: seq<Record>, ops: seq<Op>): seq<Record> {
    if ops == [] then rs
    else
      var before := FileRun(rs, ops[..|ops| - 1]);
      var after := FileStep(before, ops[|ops| - 1]);
      if after.Some? then after.value else before
  }

  ghost function ListRun(s: seq<Message>, ops: seq<Op>): seq<Message> {
    if ops == [] then s
    else
      var before := ListRun(s, ops[..|ops| - 1]);
      var after := ListStep(before, ops[|ops| - 1]);
      if after.Some? then after.value else before
  }

  /** Every uuid brought in is new to the file at that moment. */
  ghost predicate NewAlong(rs: seq<Record>, ops: seq<Op>) {
    forall i :: 0 <= i < |ops| ==> NewHere(FileRun(rs, ops[..i]), ops[i])
  }

  /**
   * Simulation: over every run of removals and injections, file and list stay in agreement, so the
   * file's chain is the list, and each operation fails on one exactly when it fails on the other.
   */
  lemma {:induction false} Simulation(rs: seq<Record>, s: seq<Message>, ops: seq<Op>)
    requires Agree(rs, s) && NewAlong(rs, ops)
    ensures Agree(FileRun(rs, ops), ListRun(s, ops))
    ensures ChainIds(FileRun(rs, ops)) == ListIds(ListRun(s, ops))
    ensures forall i :: 0 <= i < |ops| ==>
      (FileStep(FileRun(rs, ops[..i]), ops[i]).None? <==> ListStep(ListRun(s, ops[..i]), ops[i]).None?)
  {
    hide FileStep, ListStep, ChainIds, Branch, NewHere;
    if ops != [] {
      var k := |ops| - 1;
      var front := ops[..k];
      forall i | 0 <= i < k ensures front[..i] == ops[..i] && front[i] == ops[i] {}
      assert NewAlong(rs, front);
      Simulation(rs, s, front);
      StepAgrees(FileRun(rs, front), ListRun(s, front), ops[k]);
    }
    BranchChain(FileRun(rs, ops), ListIds(ListRun(s, ops)));
  }

  // ----- The contents go along -----

  /** Every message of the list stands in the file, with its uuid, kind and payload. */
  ghost predicate Carries(rs: seq<Record>, s: seq<Message>) {
    forall m :: m in s ==> InFile(rs, m)
  }

  ghost predicate InFile(rs: seq<Record>, m: Message) {
    exists k :: 0 <= k < |rs| && rs[k].uuid == m.uuid && rs[k].kind == m.kind && rs[k].payload == m.payload
  }

  lemma RemoveCarries(rs: seq<Record>, s: seq<Message>, u: string)
    requires Agree(rs, s) && Carries(rs, s) && FileRemove(rs, u).Some? && ListRemove(s, u).Some?
    ensures Carries(FileRemove(rs, u).value, ListRemove(s, u).value)
  {
    var i := IndexOfUuid(s, u);
    var ids, out := ListIds(s), FileRemove(rs, u).value;
    FoundIs(rs, ids, u);
    var found := FindFirst(rs, u).value;
    var k :| 0 <= k < |rs| && rs[k] == found;
    UniqueAt(rs, k);
    RemovedRecords(rs, u, k);
    hide FindFirst, Removed, IndexOfUuid, Branch, InFile;
    forall m | m in ListRemove(s, u).value ensures InFile(out, m) {
      var j :| 0 <= j < |s| && j != i && s[j] == m;
      assert ids[j] != ids[i];
      StillInFile(rs, out, k, m);
    }
  }

  lemma StillInFile(rs: seq<Record>, out: seq<Record>, k: nat, m: Message)
    requires InFile(rs, m) && k < |rs| && |out| == |rs| - 1 && m.uuid != rs[k].uuid
    requires forall i :: 0 <= i < |out| ==>
               var r := rs[if i < k then i else i + 1];
               out[i].uuid == r.uuid && out[i].kind == r.kind && out[i].payload == r.payload
    ensures InFile(out, m)
  {
    var x :| 0 <= x < |rs| && rs[x].uuid == m.uuid && rs[x].kind == m.kind && rs[x].payload == m.payload;
    var y := if x < k then x else x - 1;
    assert out[y].uuid == rs[x].uuid;
  }

  lemma UniqueAt(rs: seq<Record>, k: nat)
    requires Unique(rs) && k < |rs| && Truthy(rs[k].uuid)
    ensures forall j :: 0 <= j < |rs| && j != k ==> rs[j].uuid != rs[k].uuid
  {
  }

  lemma GrownCarries(rs: seq<Record>, out: seq<Record>, s: seq<Message>, more: seq<Message>, m: Message)
    requires Carries(rs, s) && |out| == |rs| + 1
    requires forall i :: 0 <= i < |rs| ==>
               out[i].uuid == rs[i].uuid && out[i].kind == rs[i].kind && out[i].payload == rs[i].payload
    requires out[|rs|].uuid == m.uuid && out[|rs|].kind == m.kind && out[|rs|].payload == m.payload
    requires forall x :: x in more ==> x in s || x == m
    ensures Carries(out, more)
  {
    forall x | x in more ensures InFile(out, x) {
      if x == m {
        assert out[|rs|].uuid == x.uuid;
      } else {
        assert InFile(rs, x);
        var k :| 0 <= k < |rs| && rs[k].uuid == x.uuid && rs[k].kind == x.kind && rs[k].payload == x.payload;
        assert out[k].uuid == x.uuid;
      }
    }
  }

  lemma InjectCarries(rs: seq<Record>, s: seq<Message>, after: Option<string>, n: string, kind: string, payload: string)
    requires Carries(rs, s)
    ensures var f, l := FileInject(rs, after, n, kind, payload), ListInject(s, after, Message(Some(n), kind, payload));
            f.Some? && l.Some? ==> Carries(f.value, l.value)
  {
    hide Carries, FindFirst, IndexOfUuid, Root, Tail;
    var m := Message(Some(n), kind, payload);
    var f, l := FileInject(rs, after, n, kind, payload), ListInject(s, after, m);
    if f.Some? && l.Some? {
      if after == Some(START) {
        PrependedRecords(rs, Root(rs), n, kind, payload);
      } else if Truthy(after) {
        InjectedRecords(rs, after.value, n, after, kind, payload);
      }
      hide Prepended, Injected;
      GrownCarries(rs, f.value, s, l.value, m);
    }
  }

  /** Commands inject messages of the user or of the system. */
  ghost predicate KnownRoles(ops: seq<Op>) {
    forall i :: 0 <= i < |ops| && ops[i].Inject? ==> ops[i].role == "user" || ops[i].role == "system"
  }

  /** With any other role file and list differ: the file says user, and the list what it was told. */
  lemma RoleKeptExactly(role: string)
    ensures RecordType(role) == role <==> role == "user" || role == "system"
  {
  }

  /** Over every run the messages of the list stand in the file with their kinds and payloads. */
  lemma {:induction false} SimulationCarries(rs: seq<Record>, s: seq<Message>, ops: seq<Op>)
    requires Agree(rs, s) && Carries(rs, s) && NewAlong(rs, ops) && KnownRoles(ops)
    ensures Carries(FileRun(rs, ops), ListRun(s, ops))
  {
    hide Agree, Carries, FileRemove, FileInject, ListRemove, ListInject, NewHere;
    if ops != [] {
      var k := |ops| - 1;
      var front := ops[..k];
      forall i | 0 <= i < k ensures front[..i] == ops[..i] && front[i] == ops[i] {}
      assert NewAlong(rs, front);
      Simulation(rs, s, front);
      SimulationCarries(rs, s, front);
      var f, l := FileRun(rs, front), ListRun(s, front);
      StepAgrees(f, l, ops[k]);
      match ops[k] {
        case Remove(u) => if FileStep(f, ops[k]).Some? { RemoveCarries(f, l, u); }
        case Inject(after, n, role, payload) =>
          RoleKeptExactly(role);
          InjectCarries(f, l, after, n, role, payload);
      }
    }
  }

  // ----- Truncation is where the backends part -----

  /**
   * The file keeps `n` pairs of turns, the list `n` messages.  From a state in which they agree, both
   * succeed and come out with the same uuids exactly when the list has no more than `n` messages to begin
   * with; for a negative `n` the file fails whatever it holds, and for zero only an empty one agrees.
   */
  lemma TruncateAgreesExactly(rs: seq<Record>, s: seq<Message>, n: int)
    requires Agree(rs, s)
    ensures Truncated(rs, n).Done? && ChainIds(Truncated(rs, n).records) == ListIds(s[|s| - Clamp(n, |s|)..]) <==>
            |s| <= n
  {
    var ids := ListIds(s);
    BranchChain(rs, ids);
    CountAtMost(Kinds(Chain(rs)));
    assert |ChainIds(rs)| == |Chain(rs)|;
    if n >= 1 {
      TruncateChain(rs, n);
      var out := Truncated(rs, n).records;
      CountAtMost(Kinds(Chain(out)));
      assert |ChainIds(out)| == |Chain(out)|;
    }
    hide Truncated, Chain, Branch, Count;
    TruncateNothing(rs, n);
    if |s| <= n {
      assert s[0..] == s;
    }
  }

  /** Keeping no turn at all works only on a log without a conversation, and leaves it alone. */
  lemma TruncateNothing(rs: seq<Record>, n: int)
    ensures n <= 0 && Truncated(rs, n).Done? ==> n == 0 && Truncated(rs, n).records == rs
    ensures n == 0 && Count(Kinds(Chain(rs))) == 0 ==> Truncated(rs, n) == Done(rs)
  {
  }

  lemma {:induction false} CountAtMost(kinds: seq<string>)
    ensures Count(kinds) <= |kinds|
  {
    if kinds != [] { CountAtMost(kinds[1..]); }
  }
}
