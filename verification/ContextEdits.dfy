/**
 * Removing and injecting messages: the log is relinked record by record, and the chain read out of
 * it afterwards is the old chain edited as a list.
 */
module ContextEdits {
  import opened Text
  import opened Transcript

  // ----- Logs without broken identity -----

  /** No two records share a uuid; records without one may occur. */
  ghost predicate Unique(rs: seq<Record>) {
    forall i, j :: 0 <= i < j < |rs| && Truthy(rs[i].uuid) ==> rs[i].uuid != rs[j].uuid
  }

  /** Every record ranks above the record it hangs from. */
  ghost predicate Ranked(rs: seq<Record>, rank: string -> nat) {
    forall r :: r in rs && Truthy(r.uuid) && Truthy(r.parent) && r.parent.value in Ids(rs) ==>
                  rank(r.parent.value) < rank(r.uuid.value)
  }

  ghost predicate Acyclic(rs: seq<Record>) {
    exists rank: string -> nat :: Ranked(rs, rank)
  }

  ghost predicate WellFormed(rs: seq<Record>) {
    Unique(rs) && Acyclic(rs)
  }

  /** `id` is nowhere in the log, as a uuid `randomUUID` hands out is taken to be. */
  predicate Fresh(rs: seq<Record>, id: string) {
    id != "" && forall r :: r in rs ==> r.uuid != Some(id) && r.parent != Some(id)
  }

  lemma {:induction false} UniqueLookup(rs: seq<Record>, r: Record)
    requires Unique(rs) && r in rs && Truthy(r.uuid)
    ensures Lookup(rs, r.uuid.value) == Some(r)
  {
    var last, init := rs[|rs| - 1], rs[..|rs| - 1];
    assert rs == init + [last];
    if last.uuid == r.uuid {
      var i :| 0 <= i < |rs| && rs[i] == r;
    } else {
      UniqueLookup(init, r);
    }
  }

  // ----- The chain as a list of uuids -----

  function IdOf(r: Record): string {
    if r.uuid.Some? then r.uuid.value else ""
  }

  function Uuids(c: seq<Record>): (u: seq<string>)
    ensures |u| == |c|
  {
    seq(|c|, i requires 0 <= i < |c| => IdOf(c[i]))
  }

  ghost function ChainIds(rs: seq<Record>): seq<string> {
    Uuids(Chain(rs))
  }

  /** The uuid above `id` in the log. */
  ghost function Up(rs: seq<Record>, id: string): Option<string> {
    match Lookup(rs, id)
    case None => None
    case Some(r) => if Truthy(r.parent) && r.parent.value in Ids(rs) then Some(r.parent.value) else None
  }

  lemma UpRanks(rs: seq<Record>, rank: string -> nat, id: string)
    requires Unique(rs) && Ranked(rs, rank) && id in Ids(rs)
    ensures Up(rs, id).Some? ==> Up(rs, id).value in Ids(rs) && rank(Up(rs, id).value) < rank(id)
  {
    LookupFinds(rs, id);
  }

  /** The path from the root to `id`. */
  ghost function Trace(rs: seq<Record>, rank: string -> nat, id: string): (t: seq<string>)
    requires Unique(rs) && Ranked(rs, rank) && id in Ids(rs)
    ensures t != [] && t[|t| - 1] == id
    decreases rank(id)
  {
    UpRanks(rs, rank, id);
    (if Up(rs, id).Some? then Trace(rs, rank, Up(rs, id).value) else []) + [id]
  }

  lemma {:induction false} WalkIsTrace(rs: seq<Record>, rank: string -> nat, r: Record, visited: set<string>)
    requires Unique(rs) && Ranked(rs, rank) && r in rs && Truthy(r.uuid)
    requires forall v :: v in visited ==> rank(r.uuid.value) < rank(v)
    ensures r.uuid.value in Ids(rs)
    ensures Uuids(Walk(rs, r, visited)) == Trace(rs, rank, r.uuid.value)
    decreases rank(r.uuid.value)
  {
    var id := r.uuid.value;
    UniqueLookup(rs, r);
    UpRanks(rs, rank, id);
    var above := if Truthy(r.parent) then r.parent.value else "";
    LookupFinds(rs, above);
    if Up(rs, id).Some? {
      var p :| p in rs && Truthy(p.uuid) && p.uuid.value == above;
      UniqueLookup(rs, p);
      WalkIsTrace(rs, rank, p, visited + {id});
      assert Uuids(Walk(rs, p, visited + {id}) + [r]) == Uuids(Walk(rs, p, visited + {id})) + [id];
    }
  }

  /** The chain is the path to the chosen leaf. */
  lemma ChainIsTrace(rs: seq<Record>, rank: string -> nat)
    requires Unique(rs) && Ranked(rs, rank)
    ensures Leaf(rs).None? ==> ChainIds(rs) == []
    ensures Leaf(rs).Some? ==> IdOf(Leaf(rs).value) in Ids(rs) && ChainIds(rs) == Trace(rs, rank, IdOf(Leaf(rs).value))
  {
    LeafFinds(rs);
    if leaf :| Leaf(rs) == Some(leaf) {
      WalkIsTrace(rs, rank, leaf, {});
    }
  }

  // ----- The edits -----

  /** `r`, hung from `to` if it hung from `from`. */
  function Repoint(r: Record, from: string, to: Option<string>): Record {
    if r.parent == Some(from) then r.(parent := to) else r
  }

  function RepointAll(rs: seq<Record>, from: string, to: Option<string>): (out: seq<Record>)
    ensures |out| == |rs| && forall i :: 0 <= i < |rs| ==> out[i] == Repoint(rs[i], from, to)
  {
    seq(|rs|, i requires 0 <= i < |rs| => Repoint(rs[i], from, to))
  }

  /** The records that do not carry `id`. */
  function Without(rs: seq<Record>, id: string): seq<Record> {
    if rs == [] then []
    else Without(rs[..|rs| - 1], id) + (if rs[|rs| - 1].uuid == Some(id) then [] else [rs[|rs| - 1]])
  }

  /** The first record that carries `id`. */
  function FindFirst(rs: seq<Record>, id: string): Option<Record> {
    if rs == [] then None
    else if rs[0].uuid == Some(id) then Some(rs[0])
    else FindFirst(rs[1..], id)
  }

  lemma {:induction false} FindFirstFinds(rs: seq<Record>, id: string)
    ensures match FindFirst(rs, id)
            case Some(r) => r in rs && r.uuid == Some(id)
            case None => forall r :: r in rs ==> r.uuid != Some(id)
  {
    if rs != [] {
      FindFirstFinds(rs[1..], id);
      assert rs == [rs[0]] + rs[1..];
    }
  }

  /** The log after `removeMessage`, for the record `target` it found. */
  function Removed(rs: seq<Record>, target: string, found: Record): seq<Record> {
    RepointAll(Without(rs, target), target, found.parent)
  }

  lemma {:induction false} WithoutKeeps(rs: seq<Record>, id: string)
    ensures forall r :: r in Without(rs, id) <==> r in rs && r.uuid != Some(id)
    ensures Unique(rs) ==> Unique(Without(rs, id))
  {
    if rs != [] {
      var init, last := rs[..|rs| - 1], rs[|rs| - 1];
      assert rs == init + [last];
      WithoutKeeps(init, id);
      if Unique(rs) {
        assert Unique(init);
        forall r | r in init && Truthy(r.uuid) ensures r.uuid != last.uuid {
          var i :| 0 <= i < |init| && init[i] == r;
          assert rs[i] == r && rs[|rs| - 1] == last;
        }
      }
    }
  }

  /** What removing a record does to the links, seen uuid by uuid. */
  lemma RemovedLinks(rs: seq<Record>, t: string, found: Record)
    requires Unique(rs) && found in rs && found.uuid == Some(t) && t != ""
    ensures var out := Removed(rs, t, found);
            && Unique(out) && Ids(out) == Ids(rs) - {t}
            && (found.parent != Some(t) ==>
                  forall x :: x in Ids(out) ==> Up(out, x) == if Up(rs, x) == Some(t) then Up(rs, t) else Up(rs, x))
  {
    RemovedIds(rs, t, found);
    hide Ids, Unique, Up, Removed, Lookup;
    if found.parent != Some(t) {
      forall x | x in Ids(Removed(rs, t, found))
        ensures Up(Removed(rs, t, found), x) == if Up(rs, x) == Some(t) then Up(rs, t) else Up(rs, x)
      {
        RemovedUp(rs, t, found, x);
      }
    }
  }

  lemma RemovedIds(rs: seq<Record>, t: string, found: Record)
    requires Unique(rs) && t != ""
    ensures var out := Removed(rs, t, found); Unique(out) && Ids(out) == Ids(rs) - {t}
  {
    WithoutKeeps(rs, t);
    var mid, out := Without(rs, t), Removed(rs, t, found);
    hide Removed;
    assert |out| == |mid| && forall i :: 0 <= i < |mid| ==> out[i].uuid == mid[i].uuid by {
      RemovedAt(rs, t, found);
    }
    SameUuids(mid, out);
    forall x ensures x in Ids(mid) <==> x in Ids(rs) - {t} {
      if x in Ids(rs) - {t} {
        var r :| r in rs && Truthy(r.uuid) && r.uuid.value == x;
        assert r in mid;
      }
    }
  }

  /** The removed log holds the other records, those that hung from the removed one repointed. */
  lemma RemovedAt(rs: seq<Record>, t: string, found: Record)
    ensures var mid, out := Without(rs, t), Removed(rs, t, found);
            |out| == |mid| && forall i :: 0 <= i < |mid| ==> out[i] == Repoint(mid[i], t, found.parent)
  {
  }

  lemma SameUuids(mid: seq<Record>, out: seq<Record>)
    requires |out| == |mid| && forall i :: 0 <= i < |mid| ==> out[i].uuid == mid[i].uuid
    ensures Ids(out) == Ids(mid)
    ensures Unique(mid) ==> Unique(out)
  {
    forall x | x in Ids(mid) ensures x in Ids(out) {
      var i :| 0 <= i < |mid| && Truthy(mid[i].uuid) && mid[i].uuid.value == x;
      assert out[i] in out;
    }
    forall x | x in Ids(out) ensures x in Ids(mid) {
      var i :| 0 <= i < |out| && Truthy(out[i].uuid) && out[i].uuid.value == x;
      assert mid[i] in mid;
    }
  }

  lemma RemovedUp(rs: seq<Record>, t: string, found: Record, x: string)
    requires Unique(rs) && found in rs && found.uuid == Some(t) && t != "" && found.parent != Some(t)
    requires x in Ids(Removed(rs, t, found))
    ensures var out := Removed(rs, t, found);
            Unique(out) && Ids(out) == Ids(rs) - {t}
            && Up(out, x) == if Up(rs, x) == Some(t) then Up(rs, t) else Up(rs, x)
  {
    RemovedIds(rs, t, found);
    WithoutKeeps(rs, t);
    RemovedAt(rs, t, found);
    var mid, out := Without(rs, t), Removed(rs, t, found);
    hide Removed, Without, Lookup, Unique, Up;
    var i :| 0 <= i < |out| && Truthy(out[i].uuid) && out[i].uuid.value == x;
    assert mid[i] in mid;
    var j :| 0 <= j < |rs| && rs[j] == mid[i];
    var k :| 0 <= k < |rs| && rs[k] == found;
    Relinked(rs, out, i, j, k, t);
  }

  /** The link of one record after the record it may hang from has gone. */
  lemma Relinked(rs: seq<Record>, out: seq<Record>, i: nat, j: nat, k: nat, t: string)
    requires Unique(rs) && Unique(out) && Ids(out) == Ids(rs) - {t} && t != ""
    requires i < |out| && j < |rs| && k < |rs| && Truthy(rs[j].uuid)
    requires rs[k].uuid == Some(t) && rs[k].parent != Some(t) && out[i] == Repoint(rs[j], t, rs[k].parent)
    ensures var x := rs[j].uuid.value; Up(out, x) == if Up(rs, x) == Some(t) then Up(rs, t) else Up(rs, x)
  {
    hide Unique, Up;
    UpAt(out, i);
    UpAt(rs, j);
    UpAt(rs, k);
    hide Ids;
  }

  // ----- Removing a message -----

  function Filter(c: seq<string>, t: string): seq<string> {
    if c == [] then []
    else Filter(c[..|c| - 1], t) + (if c[|c| - 1] == t then [] else [c[|c| - 1]])
  }

  lemma {:induction false} TraceRemoved(rs: seq<Record>, out: seq<Record>, rank: string -> nat, t: string, x: string)
    requires Unique(rs) && Ranked(rs, rank) && Unique(out) && Ranked(out, rank)
    requires t in Ids(rs) && Ids(out) == Ids(rs) - {t} && x in Ids(out)
    requires forall y :: y in Ids(out) ==> Up(out, y) == if Up(rs, y) == Some(t) then Up(rs, t) else Up(rs, y)
    ensures Trace(out, rank, x) == Filter(Trace(rs, rank, x), t)
    decreases rank(x)
  {
    hide Filter, Up;
    FilterNil(t);
    UpRanks(rs, rank, x);
    UpRanks(rs, rank, t);
    TraceIs(rs, rank, x);
    TraceIs(out, rank, x);
    FilterAppend(Ancestors(rs, rank, x), x, t);
    if up :| Up(rs, x) == Some(up) {
      if up == t {
        TraceIs(rs, rank, t);
        FilterAppend(Ancestors(rs, rank, t), t, t);
        if q :| Up(rs, t) == Some(q) { TraceRemoved(rs, out, rank, t, q); }
      } else {
        TraceRemoved(rs, out, rank, t, up);
      }
    }
  }

  /** The path to the record above `id`. */
  ghost function Ancestors(rs: seq<Record>, rank: string -> nat, id: string): seq<string>
    requires Unique(rs) && Ranked(rs, rank) && id in Ids(rs)
  {
    UpRanks(rs, rank, id);
    if Up(rs, id).Some? then Trace(rs, rank, Up(rs, id).value) else []
  }

  lemma TraceIs(rs: seq<Record>, rank: string -> nat, id: string)
    requires Unique(rs) && Ranked(rs, rank) && id in Ids(rs)
    ensures Trace(rs, rank, id) == Ancestors(rs, rank, id) + [id]
  {
  }

  lemma FilterNil(t: string)
    ensures Filter([], t) == []
  {
  }

  lemma FilterAppend(c: seq<string>, x: string, t: string)
    ensures Filter(c + [x], t) == Filter(c, t) + (if x == t then [] else [x])
  {
    assert (c + [x])[..|c|] == c;
  }

  /** Removal keeps every rank: the children of the removed record now hang from something lower still. */
  lemma RemovedRanked(rs: seq<Record>, rank: string -> nat, t: string, found: Record)
    requires Unique(rs) && Ranked(rs, rank) && found in rs && found.uuid == Some(t) && t != ""
    ensures Ranked(Removed(rs, t, found), rank)
    ensures found.parent != Some(t)
  {
    var mid, out := Without(rs, t), Removed(rs, t, found);
    RemovedLinks(rs, t, found);
    WithoutKeeps(rs, t);
    assert found.parent != Some(t);
    forall o | o in out && Truthy(o.uuid) && Truthy(o.parent) && o.parent.value in Ids(out)
      ensures rank(o.parent.value) < rank(o.uuid.value)
    {
      var i :| 0 <= i < |out| && out[i] == o;
      assert mid[i] in rs;
      if mid[i].parent == Some(t) {
        assert rank(found.parent.value) < rank(t) < rank(o.uuid.value);
      }
    }
  }

  lemma LastLeafStep(rs: seq<Record>, parents: set<string>, mainOnly: bool)
    ensures rs != [] ==>
              var init, last := rs[..|rs| - 1], rs[|rs| - 1];
              LastLeaf(rs, parents, mainOnly) ==
              if IsLeaf(last, parents, mainOnly) then Some(last) else LastLeaf(init, parents, mainOnly)
  {
  }

  lemma LastRemoved(rs: seq<Record>, t: string, to: Option<string>)
    requires rs != []
    ensures var init, last := rs[..|rs| - 1], rs[|rs| - 1];
            var kept, out := RepointAll(Without(init, t), t, to), RepointAll(Without(rs, t), t, to);
            if last.uuid == Some(t) then out == kept
            else out != [] && out[..|out| - 1] == kept && out[|out| - 1] == Repoint(last, t, to)
  {
  }

  /** Filtering and repointing keep the last leaf, as long as the removed record was not one. */
  lemma {:induction false} LastLeafRemoved(rs: seq<Record>, parents: set<string>, parents': set<string>, mainOnly: bool,
                                           t: string, to: Option<string>)
    requires t in parents && t != ""
    requires forall x :: x != t ==> (x in parents <==> x in parents')
    ensures var a, b := LastLeaf(rs, parents, mainOnly),
                          LastLeaf(RepointAll(Without(rs, t), t, to), parents', mainOnly);
            && (a.Some? <==> b.Some?)
            && (a.Some? ==> a.value.uuid == b.value.uuid && Truthy(b.value.uuid))
  {
    if rs != [] {
      var init, last := rs[..|rs| - 1], rs[|rs| - 1];
      hide LastLeaf, Without, RepointAll;
      LastLeafRemoved(init, parents, parents', mainOnly, t, to);
      LastRemoved(rs, t, to);
      var out := RepointAll(Without(rs, t), t, to);
      LastLeafStep(rs, parents, mainOnly);
      LastLeafStep(out, parents', mainOnly);
    }
  }

  /** A record that has children keeps its role as a link after removal: nothing else becomes or stops being a leaf. */
  lemma RemovedParents(rs: seq<Record>, t: string, found: Record)
    requires Unique(rs) && found in rs && found.uuid == Some(t) && t in Parents(rs) && found.parent != Some(t)
    ensures forall x :: x != t ==> (x in Parents(rs) <==> x in Parents(Removed(rs, t, found)))
  {
    var mid, out := Without(rs, t), Removed(rs, t, found);
    WithoutKeeps(rs, t);
    forall x | x != t && x in Parents(rs) ensures x in Parents(out) {
      var r :| r in rs && Truthy(r.uuid) && r.parent == Some(x);
      var c := r;
      if r.uuid == Some(t) {
        UniqueLookup(rs, found);
        UniqueLookup(rs, r);
        c :| c in rs && Truthy(c.uuid) && c.parent == Some(t);
        if c.uuid == Some(t) { UniqueLookup(rs, c); }
      }
      assert c in mid;
      var i :| 0 <= i < |mid| && mid[i] == c;
      assert out[i] in out && out[i].parent == Some(x);
    }
    forall x | x != t && x in Parents(out) ensures x in Parents(rs) {
      var o :| o in out && Truthy(o.uuid) && o.parent == Some(x);
      var i :| 0 <= i < |out| && out[i] == o;
      assert mid[i] in rs;
    }
  }

  /**
   * Removing a record that has children from a well-formed log takes exactly that uuid out of the
   * chain, wherever it stands, keeps the log well-formed, and loses no other record.
   */
  lemma RemoveFiltersChain(rs: seq<Record>, t: string, found: Record)
    requires WellFormed(rs) && found in rs && found.uuid == Some(t) && t != ""
    requires t in Parents(rs)
    ensures WellFormed(Removed(rs, t, found))
    ensures Ids(Removed(rs, t, found)) == Ids(rs) - {t}
    ensures forall k :: 0 <= k < |ChainIds(rs)| && ChainIds(rs)[k] == t ==>
              ChainIds(Removed(rs, t, found)) == ChainIds(rs)[..k] + ChainIds(rs)[k + 1..]
    ensures t !in ChainIds(rs) ==> ChainIds(Removed(rs, t, found)) == ChainIds(rs)
  {
    hide *;
    RemoveFilters(rs, t, found);
    ChainDistinct(rs);
    var c := ChainIds(rs);
    forall k | 0 <= k < |c| && c[k] == t ensures Filter(c, t) == c[..k] + c[k + 1..] {
      FilterAt(c, t, k);
    }
    if t !in c {
      FilterNowhere(c, t);
    }
  }

  lemma ChainDistinct(rs: seq<Record>)
    ensures forall i, j :: 0 <= i < j < |ChainIds(rs)| ==> ChainIds(rs)[i] != ChainIds(rs)[j]
  {
    ChainSound(rs);
    hide Chain;
    var c := Chain(rs);
    forall i, j | 0 <= i < j < |c| ensures IdOf(c[i]) != IdOf(c[j]) {
      assert c[i] in c && c[j] in c;
    }
  }

  lemma RemoveFilters(rs: seq<Record>, t: string, found: Record)
    requires WellFormed(rs) && found in rs && found.uuid == Some(t) && t != ""
    requires t in Parents(rs)
    ensures WellFormed(Removed(rs, t, found))
    ensures Ids(Removed(rs, t, found)) == Ids(rs) - {t}
    ensures ChainIds(Removed(rs, t, found)) == Filter(ChainIds(rs), t)
  {
    var rank: string -> nat :| Ranked(rs, rank);
    var out := Removed(rs, t, found);
    RemovedRanked(rs, rank, t, found);
    RemovedLinks(rs, t, found);
    RemovedParents(rs, t, found);
    LastLeafRemoved(rs, Parents(rs), Parents(out), true, t, found.parent);
    LastLeafRemoved(rs, Parents(rs), Parents(out), false, t, found.parent);
    ChainIsTrace(rs, rank);
    ChainIsTrace(out, rank);
    if leaf :| Leaf(rs) == Some(leaf) {
      LeafFinds(rs);
      TraceRemoved(rs, out, rank, t, IdOf(leaf));
    }
  }

  lemma {:induction false} WithoutAt(rs: seq<Record>, id: string, k: nat)
    requires k < |rs| && rs[k].uuid == Some(id)
    requires forall j :: 0 <= j < |rs| && j != k ==> rs[j].uuid != Some(id)
    ensures Without(rs, id) == rs[..k] + rs[k + 1..]
  {
    var n := |rs| - 1;
    if k == n {
      WithoutNone(rs[..n], id);
      assert rs[k + 1..] == [];
    } else {
      WithoutAt(rs[..n], id, k);
      assert rs[..n][..k] == rs[..k] && rs[..n][k + 1..] + [rs[n]] == rs[k + 1..];
    }
  }

  lemma {:induction false} WithoutNone(rs: seq<Record>, id: string)
    requires forall j :: 0 <= j < |rs| ==> rs[j].uuid != Some(id)
    ensures Without(rs, id) == rs
  {
    if rs != [] {
      WithoutNone(rs[..|rs| - 1], id);
      assert rs == rs[..|rs| - 1] + [rs[|rs| - 1]];
    }
  }

  /** A removal takes one record out of the file; the others keep their order and every field but the parent. */
  lemma RemovedRecords(rs: seq<Record>, t: string, k: nat)
    requires k < |rs| && rs[k].uuid == Some(t)
    requires forall j :: 0 <= j < |rs| && j != k ==> rs[j].uuid != Some(t)
    ensures var out := Removed(rs, t, rs[k]);
            && |out| == |rs| - 1
            && forall i :: 0 <= i < |out| ==>
                 var r := rs[if i < k then i else i + 1];
                 var parent := if r.parent == Some(t) then rs[k].parent else r.parent;
                 out[i] == Record(r.uuid, parent, r.sidechain, r.kind, r.payload)
  {
    WithoutAt(rs, t, k);
  }

  // ----- Injecting a message -----

  /** The record `injectMessage` adds. */
  function NewRecord(n: string, parent: Option<string>, kind: string, payload: string): Record {
    Record(Some(n), parent, false, kind, payload)
  }

  /** The log with the records hanging from `from` hung from `n` instead, and `n` itself added below `parent`. */
  function Injected(rs: seq<Record>, from: string, n: string, parent: Option<string>,
             kind: string, payload: string): seq<Record> {
    RepointAll(rs, from, Some(n)) + [NewRecord(n, parent, kind, payload)]
  }

  /**
   * An injection adds one record at the end of the file, with the given uuid, kind and payload and outside any
   * sidechain; the others stay where they are and keep every field but the parent.
   */
  lemma InjectedRecords(rs: seq<Record>, from: string, n: string, parent: Option<string>, kind: string, payload: string)
    ensures var out := Injected(rs, from, n, parent, kind, payload);
            && |out| == |rs| + 1 && out[|rs|] == Record(Some(n), parent, false, kind, payload)
            && forall i :: 0 <= i < |rs| ==>
                 var up := if rs[i].parent == Some(from) then Some(n) else rs[i].parent;
                 out[i] == Record(rs[i].uuid, up, rs[i].sidechain, rs[i].kind, rs[i].payload)
  {
  }

  /** Two logs that differ only in parents have the same last leaf if they agree on who is a parent. */
  lemma {:induction false} LastLeafSame(rs: seq<Record>, out: seq<Record>,
                             parents: set<string>, parents': set<string>, mainOnly: bool)
    requires |rs| == |out|
    requires forall i :: 0 <= i < |rs| ==> rs[i].uuid == out[i].uuid && rs[i].sidechain == out[i].sidechain
    requires forall x :: x in Ids(rs) ==> (x in parents <==> x in parents')
    ensures var a, b := LastLeaf(rs, parents, mainOnly), LastLeaf(out, parents', mainOnly);
            && (a.Some? <==> b.Some?)
            && (a.Some? ==> a.value.uuid == b.value.uuid)
  {
    if rs != [] {
      var k := |rs| - 1;
      assert rs[k] in rs;
      assert forall r :: r in rs[..k] ==> r in rs;
      LastLeafSame(rs[..k], out[..k], parents, parents', mainOnly);
    }
  }

  /** Adding a record at the end: it is the chosen leaf if it has no children, and changes nothing if it has. */
  lemma LeafAppended(mid: seq<Record>, last: Record)
    requires Truthy(last.uuid) && !last.sidechain
    ensures var out := mid + [last];
            && (last.uuid.value !in Parents(out) ==> Leaf(out) == Some(last))
            && (last.uuid.value in Parents(out) ==>
                  forall m :: LastLeaf(out, Parents(out), m) == LastLeaf(mid, Parents(out), m))
  {
    assert (mid + [last])[..|mid|] == mid;
  }

  /** `out` is `rs` with parents changed and a record for `n` added at the end. */
  ghost predicate Grown(rs: seq<Record>, out: seq<Record>, n: string) {
    && |out| == |rs| + 1
    && out[|rs|].uuid == Some(n) && !out[|rs|].sidechain
    && forall i :: 0 <= i < |rs| ==> out[i].uuid == rs[i].uuid && out[i].sidechain == rs[i].sidechain
  }

  lemma GrownUnique(rs: seq<Record>, out: seq<Record>, n: string)
    requires Unique(rs) && Fresh(rs, n) && Grown(rs, out, n)
    ensures Unique(out) && Ids(out) == Ids(rs) + {n} && n !in Ids(rs)
  {
    forall i, j | 0 <= i < j < |out| && Truthy(out[i].uuid) ensures out[i].uuid != out[j].uuid {
      if j == |rs| { assert rs[i] in rs; }
    }
    assert out[|rs|] in out;
    forall x | x in Ids(rs) ensures x in Ids(out) {
      var i :| 0 <= i < |rs| && rs[i].uuid == Some(x);
      assert out[i] in out;
    }
    forall x | x in Ids(out) ensures x in Ids(rs) + {n} {
      var i :| 0 <= i < |out| && out[i].uuid == Some(x);
      if i < |rs| { assert rs[i] in rs; }
    }
  }

  /** A parent field read as a link. */
  function Link(rs: seq<Record>, parent: Option<string>): Option<string> {
    if Truthy(parent) && parent.value in Ids(rs) then parent else None
  }

  lemma UpAt(rs: seq<Record>, i: nat)
    requires Unique(rs) && i < |rs| && Truthy(rs[i].uuid)
    ensures rs[i].uuid.value in Ids(rs) && Up(rs, rs[i].uuid.value) == Link(rs, rs[i].parent)
  {
    assert rs[i] in rs;
    UniqueLookup(rs, rs[i]);
  }

  /** What injecting below `parent` does to the links.  `from` is `n` itself when nothing is to be repointed. */
  lemma InjectedLinks(rs: seq<Record>, from: string, n: string, parent: Option<string>, kind: string, payload: string)
    requires Unique(rs) && Fresh(rs, n) && (from in Ids(rs) || from == n)
    requires parent.Some? ==> parent.value in Ids(rs)
    ensures var out := Injected(rs, from, n, parent, kind, payload);
            && Grown(rs, out, n) && Unique(out) && Ids(out) == Ids(rs) + {n} && n !in Ids(rs)
            && Up(out, n) == parent
            && (forall x :: x in Ids(rs) ==> Up(out, x) == if Up(rs, x) == Some(from) then Some(n) else Up(rs, x))
  {
    var out := Injected(rs, from, n, parent, kind, payload);
    GrownUnique(rs, out, n);
    hide Lookup;
    UpAt(out, |rs|);
    assert parent.Some? ==> Truthy(parent);
    hide Up, Unique, Fresh;
    forall x | x in Ids(rs) ensures Up(out, x) == if Up(rs, x) == Some(from) then Some(n) else Up(rs, x) {
      var i :| 0 <= i < |rs| && rs[i].uuid == Some(x);
      InjectedAt(rs, out, from, n, i);
    }
  }

  lemma InjectedAt(rs: seq<Record>, out: seq<Record>, from: string, n: string, i: nat)
    requires Unique(rs) && Unique(out) && Ids(out) == Ids(rs) + {n} && (from in Ids(rs) || from == n)
    requires n != "" && n !in Ids(rs) && forall r :: r in rs ==> r.parent != Some(n)
    requires i < |rs| <= |out| && Truthy(rs[i].uuid) && out[i] == Repoint(rs[i], from, Some(n))
    ensures var x := rs[i].uuid.value; Up(out, x) == if Up(rs, x) == Some(from) then Some(n) else Up(rs, x)
  {
    hide Up, Unique;
    assert rs[i] in rs;
    UpAt(rs, i);
    UpAt(out, i);
  }

  lemma InjectedParents(rs: seq<Record>, from: string, n: string, parent: Option<string>, kind: string, payload: string)
    requires Fresh(rs, n) && (parent.Some? ==> parent.value != n && parent.value != "")
    requires from != "" && (from == n || parent == Some(from))
    ensures var out := Injected(rs, from, n, parent, kind, payload);
            && (n in Parents(out) <==> from in Parents(rs))
            && (forall x :: x != n ==> (x in Parents(out) <==> x in Parents(rs) || parent == Some(x)))
  {
    var mid, new' := RepointAll(rs, from, Some(n)), NewRecord(n, parent, kind, payload);
    var out := mid + [new'];
    assert out[|mid|] == new';
    forall x | x in Parents(rs) ensures (if x == from then n else x) in Parents(out) {
      var r :| r in rs && Truthy(r.uuid) && r.parent == Some(x);
      var i :| 0 <= i < |rs| && rs[i] == r;
      assert out[i] in out && out[i].parent == Some(if x == from then n else x);
    }
    forall x | x in Parents(out) ensures if x == n then from in Parents(rs) else x in Parents(rs) || parent == Some(x) {
      var o :| o in out && Truthy(o.uuid) && o.parent == Some(x);
      var i :| 0 <= i < |out| && out[i] == o;
      if i < |rs| { assert rs[i] in rs; }
    }
  }

  /** The list with `n` put between `a` and what follows it. */
  function InsertBelow(c: seq<string>, a: string, n: string): seq<string> {
    if c == [] then []
    else
      var rest, last := c[..|c| - 1], c[|c| - 1];
      InsertBelow(rest, a, n) + (if rest != [] && rest[|rest| - 1] == a then [n] else []) + [last]
  }

  lemma InsertBelowAppend(c: seq<string>, x: string, a: string, n: string)
    ensures InsertBelow(c + [x], a, n) == InsertBelow(c, a, n) + (if c != [] && c[|c| - 1] == a then [n] else []) + [x]
  {
    assert (c + [x])[..|c|] == c;
  }

  lemma {:induction false} TraceInserted(rs: seq<Record>, out: seq<Record>, rank: string -> nat, rank': string -> nat,
                                         a: string, n: string, x: string)
    requires Unique(rs) && Ranked(rs, rank) && Unique(out) && Ranked(out, rank')
    requires a in Ids(rs) && n !in Ids(rs) && Ids(out) == Ids(rs) + {n} && x in Ids(rs) && Up(out, n) == Some(a)
    requires forall y :: y in Ids(rs) ==> Up(out, y) == if Up(rs, y) == Some(a) then Some(n) else Up(rs, y)
    ensures Trace(out, rank', x) == InsertBelow(Trace(rs, rank, x), a, n)
    decreases rank(x)
  {
    hide InsertBelow, Up;
    UpRanks(rs, rank, x);
    TraceIs(rs, rank, x);
    TraceIs(out, rank', x);
    TraceIs(out, rank', n);
    InsertBelowAppend(Ancestors(rs, rank, x), x, a, n);
    if up :| Up(rs, x) == Some(up) {
      TraceInserted(rs, out, rank, rank', a, n, up);
    } else {
      InsertBelowNil(a, n);
    }
  }

  lemma InsertBelowNil(a: string, n: string)
    ensures InsertBelow([], a, n) == []
  {
  }

  /** Injecting below `a` keeps the log free of cycles, although the new parent comes later in the file. */
  lemma InjectedAcyclic(rs: seq<Record>, from: string, n: string, parent: Option<string>, kind: string, payload: string)
    requires WellFormed(rs) && Fresh(rs, n) && (from == n || parent == Some(from))
    requires parent.Some? ==> parent.value in Ids(rs)
    ensures WellFormed(Injected(rs, from, n, parent, kind, payload))
  {
    var out := Injected(rs, from, n, parent, kind, payload);
    var rank: string -> nat :| Ranked(rs, rank);
    GrownUnique(rs, out, n);
    var rank': string -> nat :=
        x => if x == n then (if parent.Some? then 2 * rank(parent.value) + 1 else 0) else 2 * rank(x) + 0;
    forall o | o in out && Truthy(o.uuid) && Truthy(o.parent) && o.parent.value in Ids(out)
      ensures rank'(o.parent.value) < rank'(o.uuid.value)
    {
      var i :| 0 <= i < |out| && out[i] == o;
      if i < |rs| { assert rs[i] in rs && o == Repoint(rs[i], from, Some(n)); }
    }
    assert Ranked(out, rank');
  }

  /** The chosen leaf stays when the injected record has children, and is the injected record when it has none. */
  lemma InjectedLeaf(rs: seq<Record>, from: string, n: string, parent: Option<string>, kind: string, payload: string)
    requires Unique(rs) && Fresh(rs, n) && (parent.Some? ==> parent.value in Ids(rs))
    requires from != "" && (from == n || parent == Some(from))
    ensures var out := Injected(rs, from, n, parent, kind, payload);
            && (from !in Parents(rs) ==> Leaf(out) == Some(out[|rs|]))
            && (from in Parents(rs) ==> Leaf(rs).Some? == Leaf(out).Some?)
            && (from in Parents(rs) && Leaf(rs).Some? ==> Leaf(rs).value.uuid == Leaf(out).value.uuid)
  {
    var mid, new' := RepointAll(rs, from, Some(n)), NewRecord(n, parent, kind, payload);
    var out := Injected(rs, from, n, parent, kind, payload);
    InjectedParents(rs, from, n, parent, kind, payload);
    LeafAppended(mid, new');
    if from in Parents(rs) {
      assert from != n by { if r :| r in rs && r.parent == Some(n) { assert r in rs; } }
      LastLeafSame(rs, mid, Parents(rs), Parents(out), true);
      LastLeafSame(rs, mid, Parents(rs), Parents(out), false);
    }
  }

  /**
   * Injecting a fresh uuid after a record that has children puts it right behind that record in the
   * chain, wherever the record stands, or leaves the chain alone if the record is not on it.
   */
  lemma InjectAfterParent(rs: seq<Record>, a: string, n: string, kind: string, payload: string)
    requires WellFormed(rs) && Fresh(rs, n) && a in Ids(rs) && a in Parents(rs)
    ensures var c, out := ChainIds(rs), Injected(rs, a, n, Some(a), kind, payload);
            && WellFormed(out)
            && (forall k :: 0 <= k < |c| && c[k] == a ==> ChainIds(out) == c[..k + 1] + [n] + c[k + 1..])
            && (a !in c ==> ChainIds(out) == c)
  {
    hide *;
    InjectInserts(rs, a, n, kind, payload);
    ChainDistinct(rs);
    TailNoParent(rs);
    var c := ChainIds(rs);
    forall k | 0 <= k < |c| && c[k] == a ensures InsertBelow(c, a, n) == c[..k + 1] + [n] + c[k + 1..] {
      InsertBelowAt(c, a, n, k);
    }
    if a !in c {
      InsertBelowNowhere(c, a, n);
    }
  }

  /** The chain ends at a leaf. */
  lemma TailNoParent(rs: seq<Record>)
    ensures ChainIds(rs) != [] ==> ChainIds(rs)[|ChainIds(rs)| - 1] !in Parents(rs)
  {
    ChainSound(rs);
    LeafFinds(rs);
  }

  lemma InjectInserts(rs: seq<Record>, a: string, n: string, kind: string, payload: string)
    requires WellFormed(rs) && Fresh(rs, n) && a in Ids(rs) && a in Parents(rs)
    ensures var out := Injected(rs, a, n, Some(a), kind, payload);
            WellFormed(out) && ChainIds(out) == InsertBelow(ChainIds(rs), a, n)
  {
    assert a != "";
    hide *;
    var out := Injected(rs, a, n, Some(a), kind, payload);
    InjectedAcyclic(rs, a, n, Some(a), kind, payload);
    var rank := AnyRank(rs);
    var rank' := AnyRank(out);
    InjectedLinks(rs, a, n, Some(a), kind, payload);
    InjectedLeaf(rs, a, n, Some(a), kind, payload);
    ChainIsTrace(rs, rank);
    ChainIsTrace(out, rank');
    if Leaf(rs).Some? {
      SameId(Leaf(rs).value, Leaf(out).value);
      TraceInserted(rs, out, rank, rank', a, n, IdOf(Leaf(rs).value));
    } else {
      InsertBelowNil(a, n);
    }
  }

  lemma AnyRank(rs: seq<Record>) returns (rank: string -> nat)
    requires WellFormed(rs)
    ensures Unique(rs) && Ranked(rs, rank)
  {
    rank :| Ranked(rs, rank);
  }

  lemma SameId(a: Record, b: Record)
    requires a.uuid == b.uuid
    ensures IdOf(a) == IdOf(b)
  {
  }

  /** The path from the root to a record of a well-formed log. */
  ghost function PathTo(rs: seq<Record>, id: string): seq<string>
    requires WellFormed(rs) && id in Ids(rs)
  {
    var rank: string -> nat :| Ranked(rs, rank);
    Trace(rs, rank, id)
  }

  lemma {:induction false} TraceKept(rs: seq<Record>, out: seq<Record>,
                             rank: string -> nat, rank': string -> nat, x: string)
    requires Unique(rs) && Ranked(rs, rank) && Unique(out) && Ranked(out, rank')
    requires Ids(rs) <= Ids(out) && x in Ids(rs)
    requires forall y :: y in Ids(rs) ==> Up(out, y) == Up(rs, y)
    ensures Trace(out, rank', x) == Trace(rs, rank, x)
    decreases rank(x)
  {
    hide Up;
    UpRanks(rs, rank, x);
    TraceIs(rs, rank, x);
    TraceIs(out, rank', x);
    if up :| Up(rs, x) == Some(up) { TraceKept(rs, out, rank, rank', up); }
  }

  /** Injecting a record that hangs from `parent` and takes over no child makes its path the chain. */
  lemma InjectBelow(rs: seq<Record>, from: string, n: string, parent: Option<string>, kind: string, payload: string)
    requires WellFormed(rs) && Fresh(rs, n) && (parent.Some? ==> parent.value in Ids(rs))
    requires from == n || (parent == Some(from) && from !in Parents(rs))
    ensures var out := Injected(rs, from, n, parent, kind, payload);
            && WellFormed(out)
            && ChainIds(out) == (if parent.Some? then PathTo(rs, parent.value) else []) + [n]
  {
    var out := Injected(rs, from, n, parent, kind, payload);
    assert from != "" && from !in Parents(rs);
    NoUpTo(rs, from);
    hide *;
    InjectedAcyclic(rs, from, n, parent, kind, payload);
    var rank := AnyRank(rs);
    var rank' := AnyRank(out);
    InjectedLinks(rs, from, n, parent, kind, payload);
    InjectedLeaf(rs, from, n, parent, kind, payload);
    ChainIsTrace(out, rank');
    LastId(rs, from, n, parent, kind, payload);
    TraceIs(out, rank', n);
    AncestorsAre(out, rank', n);
    if parent.Some? {
      TraceKept(rs, out, rank, rank', parent.value);
      PathIsTrace(rs, rank, parent.value);
    }
  }

  lemma LastId(rs: seq<Record>, from: string, n: string, parent: Option<string>, kind: string, payload: string)
    ensures |Injected(rs, from, n, parent, kind, payload)| == |rs| + 1
    ensures IdOf(Injected(rs, from, n, parent, kind, payload)[|rs|]) == n
  {
  }

  lemma AncestorsAre(rs: seq<Record>, rank: string -> nat, id: string)
    requires Unique(rs) && Ranked(rs, rank) && id in Ids(rs)
    ensures Up(rs, id).Some? ==> Up(rs, id).value in Ids(rs)
    ensures Ancestors(rs, rank, id) == if Up(rs, id).Some? then Trace(rs, rank, Up(rs, id).value) else []
  {
    UpRanks(rs, rank, id);
  }

  /** Nothing hangs from a record that is no parent. */
  lemma NoUpTo(rs: seq<Record>, from: string)
    requires Unique(rs) && from !in Parents(rs)
    ensures forall x :: x in Ids(rs) ==> Up(rs, x) != Some(from)
  {
    forall x | x in Ids(rs) ensures Up(rs, x) != Some(from) { LookupFinds(rs, x); }
  }

  lemma PathIsTrace(rs: seq<Record>, rank: string -> nat, id: string)
    requires WellFormed(rs) && Unique(rs) && Ranked(rs, rank) && id in Ids(rs)
    ensures PathTo(rs, id) == Trace(rs, rank, id)
  {
    hide Up, Trace, ChainIds;
    var other: string -> nat :| Ranked(rs, other) && PathTo(rs, id) == Trace(rs, other, id);
    TraceKept(rs, rs, rank, other, id);
  }

  /** The chain of a well-formed log is the path to its last element. */
  lemma ChainIsPath(rs: seq<Record>)
    requires WellFormed(rs) && ChainIds(rs) != []
    ensures ChainIds(rs)[|ChainIds(rs)| - 1] in Ids(rs)
    ensures ChainIds(rs) == PathTo(rs, ChainIds(rs)[|ChainIds(rs)| - 1])
  {
    hide *;
    var rank := AnyRank(rs);
    ChainIsTrace(rs, rank);
    PathIsTrace(rs, rank, IdOf(Leaf(rs).value));
  }

  /** The parent a plain injection gives its record: the end of the chain. */
  ghost function Tail(rs: seq<Record>): Option<string> {
    var c := ChainIds(rs);
    if c == [] then None else Some(c[|c| - 1])
  }

  /** A plain injection appends to the chain. */
  lemma InjectPlain(rs: seq<Record>, n: string, kind: string, payload: string)
    requires WellFormed(rs) && Fresh(rs, n)
    ensures var out := Injected(rs, n, n, Tail(rs), kind, payload);
            WellFormed(out) && ChainIds(out) == ChainIds(rs) + [n]
  {
    hide ChainIds, Injected, PathTo, WellFormed;
    if ChainIds(rs) != [] { ChainIsPath(rs); }
    InjectBelow(rs, n, n, Tail(rs), kind, payload);
  }

  /** Injecting after the last record of the chain appends as well. */
  lemma InjectAfterTail(rs: seq<Record>, a: string, n: string, kind: string, payload: string)
    requires WellFormed(rs) && Fresh(rs, n) && Tail(rs) == Some(a) && a !in Parents(rs)
    ensures var out := Injected(rs, a, n, Some(a), kind, payload);
            WellFormed(out) && ChainIds(out) == ChainIds(rs) + [n]
  {
    hide ChainIds, Injected, PathTo, WellFormed;
    ChainIsPath(rs);
    InjectBelow(rs, a, n, Some(a), kind, payload);
  }

  /** What `InsertBelow` is on a list without repeats. */
  lemma {:induction false} InsertBelowAt(c: seq<string>, a: string, n: string, k: nat)
    requires k < |c| && c[k] == a && forall i :: 0 <= i < |c| && i != k ==> c[i] != a
    ensures InsertBelow(c, a, n) == if k + 1 < |c| then c[..k + 1] + [n] + c[k + 1..] else c
  {
    var rest, last := c[..|c| - 1], c[|c| - 1];
    assert c == rest + [last];
    InsertBelowAppend(rest, last, a, n);
    hide InsertBelow;
    if k < |rest| {
      InsertBelowAt(rest, a, n, k);
      if k + 1 < |rest| {
        assert rest[..k + 1] == c[..k + 1] && rest[k + 1..] + [last] == c[k + 1..];
      } else {
        assert c[..k + 1] == rest && c[k + 1..] == [last];
      }
    } else {
      InsertBelowNowhere(rest, a, n);
    }
  }

  lemma {:induction false} InsertBelowNowhere(c: seq<string>, a: string, n: string)
    requires a !in c
    ensures InsertBelow(c, a, n) == c
  {
    if c != [] {
      var rest, last := c[..|c| - 1], c[|c| - 1];
      assert c == rest + [last];
      InsertBelowNowhere(rest, a, n);
    }
  }

  lemma {:induction false} FilterAt(c: seq<string>, t: string, k: nat)
    requires k < |c| && c[k] == t && forall i :: 0 <= i < |c| && i != k ==> c[i] != t
    ensures Filter(c, t) == c[..k] + c[k + 1..]
  {
    var rest, last := c[..|c| - 1], c[|c| - 1];
    assert c == rest + [last];
    if k < |rest| {
      FilterAt(rest, t, k);
      assert rest[..k] == c[..k] && rest[k + 1..] + [last] == c[k + 1..];
    } else {
      FilterNowhere(rest, t);
    }
  }

  lemma {:induction false} FilterNowhere(c: seq<string>, t: string)
    requires t !in c
    ensures Filter(c, t) == c
  {
    if c != [] {
      assert c == c[..|c| - 1] + [c[|c| - 1]];
      FilterNowhere(c[..|c| - 1], t);
    }
  }

  // ----- Injecting at the start -----

  /** The record `root`, hung from `n` if it hung from nothing. */
  function Reroot(r: Record, root: string, n: string): Record {
    if r.uuid == Some(root) && !Truthy(r.parent) then r.(parent := Some(n)) else r
  }

  function RerootAll(rs: seq<Record>, root: string, n: string): (out: seq<Record>)
    ensures |out| == |rs| && forall i :: 0 <= i < |rs| ==> out[i] == Reroot(rs[i], root, n)
  {
    seq(|rs|, i requires 0 <= i < |rs| => Reroot(rs[i], root, n))
  }

  /** The log after injecting `n` at `__start__`, for a chain that begins with `root` or is empty. */
  function Prepended(rs: seq<Record>, root: Option<string>, n: string, kind: string, payload: string): seq<Record> {
    (if root.Some? then RerootAll(rs, root.value, n) else rs) + [NewRecord(n, None, kind, payload)]
  }

  /** An injection in front also adds its record at the end of the file, and only the root gets a parent. */
  lemma PrependedRecords(rs: seq<Record>, root: Option<string>, n: string, kind: string, payload: string)
    ensures var out := Prepended(rs, root, n, kind, payload);
            && |out| == |rs| + 1 && out[|rs|] == Record(Some(n), None, false, kind, payload)
            && forall i :: 0 <= i < |rs| ==>
                 var isRoot := root.Some? && rs[i].uuid == root && rs[i].parent in {None, Some("")};
                 var up := if isRoot then Some(n) else rs[i].parent;
                 out[i] == Record(rs[i].uuid, up, rs[i].sidechain, rs[i].kind, rs[i].payload)
  {
  }

  ghost function Root(rs: seq<Record>): Option<string> {
    var c := ChainIds(rs);
    if c == [] then None else Some(c[0])
  }

  ghost predicate NamesParent(rs: seq<Record>, id: string) {
    Lookup(rs, id).Some? && Truthy(Lookup(rs, id).value.parent)
  }

  /** The chain begins with a record that has a parent field, so the record it names is missing from the log. */
  ghost predicate DanglingRoot(rs: seq<Record>) {
    Root(rs).Some? && NamesParent(rs, Root(rs).value)
  }

  /** The first element of a path hangs from nothing. */
  lemma {:induction false} TraceRoot(rs: seq<Record>, rank: string -> nat, id: string)
    requires Unique(rs) && Ranked(rs, rank) && id in Ids(rs)
    ensures Trace(rs, rank, id)[0] in Ids(rs) && Up(rs, Trace(rs, rank, id)[0]).None?
    decreases rank(id)
  {
    UpRanks(rs, rank, id);
    if Up(rs, id).Some? {
      TraceRoot(rs, rank, Up(rs, id).value);
      assert Trace(rs, rank, id)[0] == Trace(rs, rank, Up(rs, id).value)[0];
    }
  }

  lemma {:induction false} TracePrepended(rs: seq<Record>, out: seq<Record>, rank: string -> nat, rank': string -> nat,
                                          root: string, n: string, x: string)
    requires Unique(rs) && Ranked(rs, rank) && Unique(out) && Ranked(out, rank')
    requires Ids(out) == Ids(rs) + {n} && n !in Ids(rs) && x in Ids(rs) && root in Ids(rs)
    requires Up(rs, root).None? && Up(out, root) == Some(n) && Up(out, n).None?
    requires forall y :: y in Ids(rs) && y != root ==> Up(out, y) == Up(rs, y)
    requires Trace(rs, rank, x)[0] == root
    ensures Trace(out, rank', x) == [n] + Trace(rs, rank, x)
    decreases rank(x)
  {
    hide *;
    UpRanks(rs, rank, x);
    TraceIs(rs, rank, x);
    TraceIs(out, rank', x);
    AncestorsAre(rs, rank, x);
    AncestorsAre(out, rank', x);
    if up :| Up(rs, x) == Some(up) {
      assert Trace(rs, rank, x)[0] == Trace(rs, rank, up)[0];
      TracePrepended(rs, out, rank, rank', root, n, up);
      assert [n] + Trace(rs, rank, up) + [x] == [n] + (Trace(rs, rank, up) + [x]);
    } else {
      TraceIs(out, rank', n);
      AncestorsAre(out, rank', n);
    }
  }

  /** What injecting above a root without a parent does to the links, the ranks and the leaf. */
  lemma PrependedLinks(rs: seq<Record>, root: string, n: string, kind: string, payload: string)
    requires Unique(rs) && Fresh(rs, n) && root in Ids(rs) && Up(rs, root).None?
    requires !NamesParent(rs, root)
    ensures var out := Prepended(rs, Some(root), n, kind, payload);
            && Grown(rs, out, n) && Unique(out) && Ids(out) == Ids(rs) + {n} && n !in Ids(rs)
            && Up(out, root) == Some(n) && Up(out, n).None?
            && (forall y :: y in Ids(rs) && y != root ==> Up(out, y) == Up(rs, y))
  {
    var out := Prepended(rs, Some(root), n, kind, payload);
    GrownUnique(rs, out, n);
    LookupFinds(rs, root);
    hide Lookup;
    UpAt(out, |rs|);
    forall y | y in Ids(rs) ensures Up(out, y) == if y == root then Some(n) else Up(rs, y) {
      var i :| 0 <= i < |rs| && rs[i].uuid == Some(y);
      assert rs[i] in rs;
      UniqueLookup(rs, rs[i]);
      UpAt(rs, i);
      UpAt(out, i);
    }
  }

  lemma PrependedRanked(rs: seq<Record>, rank: string -> nat, root: string, n: string, kind: string, payload: string)
    requires Unique(rs) && Ranked(rs, rank) && Fresh(rs, n) && root in Ids(rs)
    ensures WellFormed(Prepended(rs, Some(root), n, kind, payload))
  {
    var out := Prepended(rs, Some(root), n, kind, payload);
    GrownUnique(rs, out, n);
    var rank': string -> nat := x => if x == n then 0 else rank(x) + 1;
    forall o | o in out && Truthy(o.uuid) && Truthy(o.parent) && o.parent.value in Ids(out)
      ensures rank'(o.parent.value) < rank'(o.uuid.value)
    {
      var i :| 0 <= i < |out| && out[i] == o;
      if i < |rs| { assert rs[i] in rs && o == Reroot(rs[i], root, n); }
    }
    assert Ranked(out, rank');
  }

  lemma PrependedLeaf(rs: seq<Record>, root: string, n: string, kind: string, payload: string)
    requires Unique(rs) && Fresh(rs, n) && root in Ids(rs)
    requires !NamesParent(rs, root)
    ensures var out := Prepended(rs, Some(root), n, kind, payload);
            && Leaf(rs).Some? == Leaf(out).Some?
            && (Leaf(rs).Some? ==> Leaf(rs).value.uuid == Leaf(out).value.uuid)
  {
    var mid, new' := RerootAll(rs, root, n), NewRecord(n, None, kind, payload);
    var out := Prepended(rs, Some(root), n, kind, payload);
    assert out[|rs|] == new';
    forall x | x in Parents(rs) ensures x in Parents(out) {
      var i :| 0 <= i < |rs| && Truthy(rs[i].uuid) && rs[i].parent == Some(x);
      assert out[i] in out;
    }
    forall x | x in Parents(out) ensures x == n || x in Parents(rs) {
      var i :| 0 <= i < |out| && Truthy(out[i].uuid) && out[i].parent == Some(x);
      if i < |rs| { assert rs[i] in rs; }
    }
    assert n in Parents(out) by {
      LookupFinds(rs, root);
      var i :| 0 <= i < |rs| && Lookup(rs, root) == Some(rs[i]);
      assert out[i] in out && out[i].parent == Some(n);
    }
    LeafAppended(mid, new');
    assert n !in Ids(rs);
    LastLeafSame(rs, mid, Parents(rs), Parents(out), true);
    LastLeafSame(rs, mid, Parents(rs), Parents(out), false);
  }

  /** When no record has to be rerooted, nothing but the new record is added. */
  lemma NothingRerooted(rs: seq<Record>, root: string, n: string, kind: string, payload: string)
    requires Unique(rs) && Fresh(rs, n) && root in Ids(rs) && NamesParent(rs, root)
    ensures Prepended(rs, Some(root), n, kind, payload) == Injected(rs, n, n, None, kind, payload)
  {
    forall i | 0 <= i < |rs| ensures Reroot(rs[i], root, n) == rs[i] == Repoint(rs[i], n, Some(n)) {
      assert rs[i] in rs;
      if rs[i].uuid == Some(root) { UniqueLookup(rs, rs[i]); }
    }
    assert RerootAll(rs, root, n) == RepointAll(rs, n, Some(n));
  }

  lemma NothingRepointed(rs: seq<Record>, n: string, kind: string, payload: string)
    requires Fresh(rs, n)
    ensures rs + [NewRecord(n, None, kind, payload)] == Injected(rs, n, n, None, kind, payload)
  {
    forall i | 0 <= i < |rs| ensures rs[i] == Repoint(rs[i], n, Some(n)) { assert rs[i] in rs; }
    assert rs == RepointAll(rs, n, Some(n));
  }

  /**
   * Injecting at the start prepends, unless the chain's first record names a parent the log does not
   * have: then the new record becomes the whole chain.
   */
  lemma InjectStart(rs: seq<Record>, n: string, kind: string, payload: string)
    requires WellFormed(rs) && Fresh(rs, n)
    ensures var out := Prepended(rs, Root(rs), n, kind, payload);
            WellFormed(out) && ChainIds(out) == [n] + (if DanglingRoot(rs) then [] else ChainIds(rs))
  {
    var root := Root(rs);
    var rank := AnyRank(rs);
    ChainIsTrace(rs, rank);
    if root == None {
      NothingRepointed(rs, n, kind, payload);
      hide ChainIds, Injected, WellFormed, Leaf;
      InjectBelow(rs, n, n, None, kind, payload);
    } else {
      StartWithRoot(rs, rank, root.value, n, kind, payload);
    }
  }

  lemma StartWithRoot(rs: seq<Record>, rank: string -> nat, root: string, n: string, kind: string, payload: string)
    requires WellFormed(rs) && Unique(rs) && Ranked(rs, rank) && Fresh(rs, n)
    requires Root(rs) == Some(root)
    ensures var out := Prepended(rs, Some(root), n, kind, payload);
            WellFormed(out) && ChainIds(out) == [n] + (if DanglingRoot(rs) then [] else ChainIds(rs))
  {
    RootFacts(rs, rank, root);
    if DanglingRoot(rs) {
      hide ChainIds, Injected, WellFormed, Leaf;
      NothingRerooted(rs, root, n, kind, payload);
      InjectBelow(rs, n, n, None, kind, payload);
    } else {
      hide *;
      var out := Prepended(rs, Some(root), n, kind, payload);
      PrependedRanked(rs, rank, root, n, kind, payload);
      PrependedLinks(rs, root, n, kind, payload);
      PrependedLeaf(rs, root, n, kind, payload);
      var rank' := AnyRank(out);
      ChainIsTrace(out, rank');
      SameId(Leaf(rs).value, Leaf(out).value);
      TracePrepended(rs, out, rank, rank', root, n, IdOf(Leaf(rs).value));
    }
  }

  lemma RootFacts(rs: seq<Record>, rank: string -> nat, root: string)
    requires WellFormed(rs) && Unique(rs) && Ranked(rs, rank)
    requires Root(rs) == Some(root)
    ensures Leaf(rs).Some? && IdOf(Leaf(rs).value) in Ids(rs)
    ensures ChainIds(rs) == Trace(rs, rank, IdOf(Leaf(rs).value)) && ChainIds(rs)[0] == root
    ensures root in Ids(rs) && Up(rs, root).None? && Lookup(rs, root).Some?
    ensures DanglingRoot(rs) <==> NamesParent(rs, root)
  {
    hide ChainIds, Leaf;
    ChainIsTrace(rs, rank);
    TraceRoot(rs, rank, IdOf(Leaf(rs).value));
    LookupFinds(rs, root);
  }
}
