/** The transcript log: a list of records linked by parent, and the conversation chain read out of it. */
module Transcript {
  import opened Text

  /** One line of the log.  `payload` stands for everything the context operations copy but never read. */
  datatype Record = Record(uuid: Option<string>, parent: Option<string>, sidechain: bool, kind: string, payload: string)

  /** The uuids under which records can be found. */
  function Ids(rs: seq<Record>): set<string> {
    set r | r in rs && Truthy(r.uuid) :: r.uuid.value
  }

  /** The uuids that some record with a uuid names as its parent. */
  function Parents(rs: seq<Record>): set<string> {
    set r | r in rs && Truthy(r.uuid) && Truthy(r.parent) :: r.parent.value
  }

  /** The record a uuid stands for: the last one that carries it. */
  function Lookup(rs: seq<Record>, id: string): Option<Record> {
    if rs == [] then None
    else if rs[|rs| - 1].uuid == Some(id) then Some(rs[|rs| - 1])
    else Lookup(rs[..|rs| - 1], id)
  }

  predicate IsLeaf(r: Record, parents: set<string>, mainOnly: bool) {
    Truthy(r.uuid) && r.uuid.value !in parents && (mainOnly ==> !r.sidechain)
  }

  function LastLeaf(rs: seq<Record>, parents: set<string>, mainOnly: bool): Option<Record> {
    if rs == [] then None
    else if IsLeaf(rs[|rs| - 1], parents, mainOnly) then Some(rs[|rs| - 1])
    else LastLeaf(rs[..|rs| - 1], parents, mainOnly)
  }

  /** The most recent record without children, sidechains only if there is no other. */
  function Leaf(rs: seq<Record>): Option<Record> {
    var main := LastLeaf(rs, Parents(rs), true);
    if main.Some? then main else LastLeaf(rs, Parents(rs), false)
  }

  /** The record a record hangs from, if the log has it. */
  function Above(rs: seq<Record>, r: Record): Option<Record> {
    if Truthy(r.parent) then Lookup(rs, r.parent.value) else None
  }

  lemma {:induction false} LookupFinds(rs: seq<Record>, id: string)
    ensures match Lookup(rs, id)
            case Some(r) => r in rs && r.uuid == Some(id)
            case None => forall r :: r in rs ==> r.uuid != Some(id)
  {
    if rs != [] {
      LookupFinds(rs[..|rs| - 1], id);
      assert rs == rs[..|rs| - 1] + [rs[|rs| - 1]];
    }
  }

  /** The walk from `r` towards the root, root first, that stops at a record it has already passed. */
  ghost function Walk(rs: seq<Record>, r: Record, visited: set<string>): (chain: seq<Record>)
    requires r in rs && Truthy(r.uuid)
    decreases |Ids(rs) - visited|
  {
    if r.uuid.value in visited then []
    else
      LookupFinds(rs, if Truthy(r.parent) then r.parent.value else "");
      assert r.uuid.value in Ids(rs) - visited;
      assert Ids(rs) - (visited + {r.uuid.value}) < Ids(rs) - visited;
      match Above(rs, r)
      case None => [r]
      case Some(p) =>
        Smaller(Ids(rs) - (visited + {r.uuid.value}), Ids(rs) - visited);
        Walk(rs, p, visited + {r.uuid.value}) + [r]
  }

  lemma Smaller<T>(a: set<T>, b: set<T>)
    requires a < b
    ensures |a| < |b|
  {
    assert |b| == |a| + |b - a| by { assert a + (b - a) == b; }
  }

  lemma {:induction false} LastLeafFinds(rs: seq<Record>, parents: set<string>, mainOnly: bool)
    ensures match LastLeaf(rs, parents, mainOnly)
            case Some(r) => r in rs && IsLeaf(r, parents, mainOnly)
            case None => forall r :: r in rs ==> !IsLeaf(r, parents, mainOnly)
  {
    if rs != [] {
      LastLeafFinds(rs[..|rs| - 1], parents, mainOnly);
      assert rs == rs[..|rs| - 1] + [rs[|rs| - 1]];
    }
  }

  lemma LeafFinds(rs: seq<Record>)
    ensures match Leaf(rs)
            case Some(r) => r in rs && IsLeaf(r, Parents(rs), false)
            case None => forall r :: r in rs ==> !IsLeaf(r, Parents(rs), false)
  {
    LastLeafFinds(rs, Parents(rs), true);
    LastLeafFinds(rs, Parents(rs), false);
  }

  /** The conversation chain of a log, root first. */
  ghost function Chain(rs: seq<Record>): seq<Record> {
    LeafFinds(rs);
    match Leaf(rs)
    case None => []
    case Some(leaf) => Walk(rs, leaf, {})
  }

  // ----- Any log whatever -----

  /** `c` is linked: each record but the first hangs from the one before it. */
  ghost predicate Linked(rs: seq<Record>, c: seq<Record>) {
    forall i :: 0 < i < |c| ==> Above(rs, c[i]) == Some(c[i - 1])
  }

  ghost predicate NoRepeats(c: seq<Record>) {
    forall i, j :: 0 <= i < j < |c| ==> c[i].uuid != c[j].uuid
  }

  /** Why a walk stopped where it did: nothing above, or above is a record already on the path or passed before. */
  ghost predicate Ends(rs: seq<Record>, c: seq<Record>, visited: set<string>)
    requires c != []
  {
    match Above(rs, c[0])
    case None => true
    case Some(p) => Truthy(p.uuid) && (p.uuid.value in visited || exists k :: 0 <= k < |c| && c[k].uuid == p.uuid)
  }

  lemma {:induction false} WalkSound(rs: seq<Record>, r: Record, visited: set<string>)
    requires r in rs && Truthy(r.uuid)
    ensures var c := Walk(rs, r, visited);
            && Linked(rs, c) && NoRepeats(c)
            && (forall x :: x in c ==> x in rs && Truthy(x.uuid) && x.uuid.value !in visited)
            && (c == [] <==> r.uuid.value in visited)
            && (c != [] ==> c[|c| - 1] == r && Ends(rs, c, visited))
    decreases |Ids(rs) - visited|
  {
    if r.uuid.value !in visited {
      var v := visited + {r.uuid.value};
      assert r.uuid.value in Ids(rs) - visited;
      Smaller(Ids(rs) - v, Ids(rs) - visited);
      LookupFinds(rs, if Truthy(r.parent) then r.parent.value else "");
      match Above(rs, r) {
        case None =>
        case Some(p) =>
          WalkSound(rs, p, v);
          var b, c := Walk(rs, p, v), Walk(rs, r, visited);
          assert c == b + [r] && c[|c| - 1] == r;
          if b != [] {
            assert c[0] == b[0];
            assert Ends(rs, c, visited) by {
              if q :| Above(rs, b[0]) == Some(q) {
                if q.uuid.value in v { if q.uuid.value !in visited { assert c[|c| - 1].uuid == q.uuid; } }
                else { var k :| 0 <= k < |b| && b[k].uuid == q.uuid; assert c[k].uuid == q.uuid; }
              }
            }
          } else {
            assert Ends(rs, c, visited) by { if p.uuid.value !in visited { assert c[0].uuid == p.uuid; } }
          }
      }
    }
  }

  /**
   * On any log, however broken, the chain is a repeat-free path of the log's records ending at the chosen
   * leaf; it stops only at a record without a parent in the log, or whose parent is already on the path;
   * and it is empty only when no record is a leaf.
   */
  lemma ChainSound(rs: seq<Record>)
    ensures var c := Chain(rs);
            && Linked(rs, c) && NoRepeats(c)
            && (forall x :: x in c ==> x in rs && Truthy(x.uuid))
            && (c == [] <==> forall r :: r in rs ==> !IsLeaf(r, Parents(rs), false))
            && (c != [] ==> Leaf(rs) == Some(c[|c| - 1]) && Ends(rs, c, {}))
  {
    LeafFinds(rs);
    if leaf :| Leaf(rs) == Some(leaf) {
      WalkSound(rs, leaf, {});
    }
  }

  // ----- The same on the records' fields alone -----

  /** A record with a uuid that no record with a uuid names as its parent. */
  ghost predicate Childless(rs: seq<Record>, r: Record) {
    && r.uuid.Some? && r.uuid.value != ""
    && forall x :: x in rs && x.uuid.Some? && x.uuid.value != "" ==> x.parent != r.uuid
  }

  /** The last childless record of the file that is not a sidechain stands at `i`. */
  ghost predicate LastMainTip(rs: seq<Record>, i: nat) {
    && i < |rs| && Childless(rs, rs[i]) && !rs[i].sidechain
    && forall j :: i < j < |rs| ==> rs[j].sidechain || !Childless(rs, rs[j])
  }

  /** The last childless record of the file stands at `i`, and all of them are sidechains. */
  ghost predicate LastSideTip(rs: seq<Record>, i: nat) {
    && i < |rs| && Childless(rs, rs[i])
    && (forall j :: i < j < |rs| ==> !Childless(rs, rs[j]))
    && forall j :: 0 <= j < |rs| && Childless(rs, rs[j]) ==> rs[j].sidechain
  }

  /** The last record of the file with the uuid stands at `k`. */
  ghost predicate LastWith(rs: seq<Record>, k: nat, id: Option<string>) {
    k < |rs| && rs[k].uuid == id && forall j :: k < j < |rs| ==> rs[j].uuid != id
  }

  lemma {:induction false} LastLeafLast(rs: seq<Record>, parents: set<string>, mainOnly: bool, i: nat)
    requires i < |rs| && IsLeaf(rs[i], parents, mainOnly)
    requires forall j :: i < j < |rs| ==> !IsLeaf(rs[j], parents, mainOnly)
    ensures LastLeaf(rs, parents, mainOnly) == Some(rs[i])
  {
    if i < |rs| - 1 {
      assert !IsLeaf(rs[|rs| - 1], parents, mainOnly);
      LastLeafLast(rs[..|rs| - 1], parents, mainOnly, i);
    }
  }

  lemma LeafIsChildless(rs: seq<Record>, r: Record)
    ensures IsLeaf(r, Parents(rs), false) <==> Childless(rs, r)
    ensures IsLeaf(r, Parents(rs), true) <==> Childless(rs, r) && !r.sidechain
  {
  }

  /**
   * Where the chain ends: at the last childless record that is not a sidechain; without one, at the last
   * childless record; and without any childless record there is no chain.
   */
  lemma ChainEndsAt(rs: seq<Record>)
    ensures forall i: nat :: LastMainTip(rs, i) || LastSideTip(rs, i) ==>
                               Chain(rs) != [] && Chain(rs)[|Chain(rs)| - 1] == rs[i]
    ensures Chain(rs) == [] <==> forall r :: r in rs ==> !Childless(rs, r)
  {
    hide Chain, Childless, IsLeaf, LastLeaf;
    forall r | r in rs
      ensures IsLeaf(r, Parents(rs), false) == Childless(rs, r)
      ensures IsLeaf(r, Parents(rs), true) == (Childless(rs, r) && !r.sidechain)
    {
      LeafIsChildless(rs, r);
    }
    ChainSound(rs);
    forall i: nat | LastMainTip(rs, i) ensures Leaf(rs) == Some(rs[i]) {
      LastLeafLast(rs, Parents(rs), true, i);
    }
    forall i: nat | LastSideTip(rs, i) ensures Leaf(rs) == Some(rs[i]) {
      LastLeafFinds(rs, Parents(rs), true);
      LastLeafLast(rs, Parents(rs), false, i);
    }
  }

  lemma {:induction false} LookupLast(rs: seq<Record>, id: string) returns (k: nat)
    requires Lookup(rs, id).Some?
    ensures LastWith(rs, k, Some(id)) && Lookup(rs, id) == Some(rs[k])
  {
    if rs[|rs| - 1].uuid == Some(id) {
      k := |rs| - 1;
    } else {
      k := LookupLast(rs[..|rs| - 1], id);
    }
  }

  /**
   * How the chain goes on: each record but the first names the one before it as its parent, and that one is the
   * last record of the file with its uuid; the first names nobody, nobody in the file, or a record of the chain.
   */
  lemma ChainByFields(rs: seq<Record>)
    ensures forall i :: 0 < i < |Chain(rs)| ==>
                          && Chain(rs)[i - 1].uuid == Chain(rs)[i].parent
                          && exists k: nat :: LastWith(rs, k, Chain(rs)[i].parent) && rs[k] == Chain(rs)[i - 1]
    ensures Chain(rs) != [] ==>
              var up := Chain(rs)[0].parent;
              || up.None? || up.value == ""
              || (forall r :: r in rs ==> r.uuid != up)
              || (exists k :: 0 <= k < |Chain(rs)| && Chain(rs)[k].uuid == up)
  {
    hide Chain, Linked, NoRepeats, Ends, IsLeaf, Leaf;
    ChainSound(rs);
    forall i | 0 < i < |Chain(rs)|
      ensures Chain(rs)[i - 1].uuid == Chain(rs)[i].parent
      ensures exists k: nat :: LastWith(rs, k, Chain(rs)[i].parent) && rs[k] == Chain(rs)[i - 1]
    {
      AboveByFields(rs, Chain(rs), i);
    }
    if Chain(rs) != [] { StopsByFields(rs, Chain(rs)); }
  }

  lemma AboveByFields(rs: seq<Record>, c: seq<Record>, i: nat)
    requires 0 < i < |c| && Linked(rs, c)
    ensures c[i - 1].uuid == c[i].parent
    ensures exists k: nat :: LastWith(rs, k, c[i].parent) && rs[k] == c[i - 1]
  {
    hide Lookup;
    assert Above(rs, c[i]) == Some(c[i - 1]);
    LookupFinds(rs, c[i].parent.value);
    var k := LookupLast(rs, c[i].parent.value);
  }

  lemma StopsByFields(rs: seq<Record>, c: seq<Record>)
    requires c != [] && Ends(rs, c, {})
    ensures var up := c[0].parent;
      || up.None? || up.value == ""
      || (forall r :: r in rs ==> r.uuid != up)
      || (exists k :: 0 <= k < |c| && c[k].uuid == up)
  {
    hide Lookup;
    if Truthy(c[0].parent) {
      LookupFinds(rs, c[0].parent.value);
    }
  }

  // ----- buildChain as written -----

  function Leaves(rs: seq<Record>, parents: set<string>, mainOnly: bool): seq<Record> {
    if rs == [] then []
    else
      var r := rs[|rs| - 1];
      Leaves(rs[..|rs| - 1], parents, mainOnly) + (if IsLeaf(r, parents, mainOnly) then [r] else [])
  }

  lemma {:induction false} LastOfLeaves(rs: seq<Record>, parents: set<string>, mainOnly: bool)
    ensures var ls := Leaves(rs, parents, mainOnly);
            LastLeaf(rs, parents, mainOnly) == if ls == [] then None else Some(ls[|ls| - 1])
  {
    if rs != [] { LastOfLeaves(rs[..|rs| - 1], parents, mainOnly); }
  }

  /** The first loop of `buildChain`: the index by uuid and the set of parents. */
  method IndexRecords(records: seq<Record>) returns (byUuid: map<string, Record>, hasChildren: set<string>)
    ensures hasChildren == Parents(records)
    ensures byUuid.Keys == Ids(records)
    ensures forall id :: id in byUuid ==> Lookup(records, id) == Some(byUuid[id])
  {
    byUuid, hasChildren := map[], {};
    for i := 0 to |records|
      invariant hasChildren == Parents(records[..i])
      invariant byUuid.Keys == Ids(records[..i])
      invariant forall id :: id in byUuid ==> Lookup(records[..i], id) == Some(byUuid[id])
    {
      var r := records[i];
      assert records[..i + 1] == records[..i] + [r] && records[..i + 1][..i] == records[..i];
      assert records[..i + 1][i] == r;
      if !Truthy(r.uuid) { continue; }
      byUuid := byUuid[r.uuid.value := r];
      if Truthy(r.parent) {
        hasChildren := hasChildren + {r.parent.value};
      }
    }
    assert records[..|records|] == records;
  }

  /** The most recent leaf, as `buildChain` picks it: filter, and filter again without the sidechain test. */
  method PickLeaf(records: seq<Record>, hasChildren: set<string>) returns (leaf: Option<Record>)
    requires hasChildren == Parents(records)
    ensures leaf == Leaf(records)
  {
    LastOfLeaves(records, hasChildren, true);
    LastOfLeaves(records, hasChildren, false);
    var leaves := Leaves(records, hasChildren, true);
    if |leaves| == 0 {
      leaves := Leaves(records, hasChildren, false);
      if |leaves| == 0 {
        return None;
      }
    }
    leaf := Some(leaves[|leaves| - 1]);
  }

  /** `buildChain` */
  method BuildChain(records: seq<Record>) returns (chain: seq<Record>)
    ensures chain == Chain(records)
  {
    var byUuid, hasChildren := IndexRecords(records);
    var current := PickLeaf(records, hasChildren);
    hide *;
    chain := [];
    var visited := {};
    ChainIs(records);
    while current.Some? && current.value.uuid.value !in visited
      invariant Walkable(records, current)
      invariant Chain(records) == WalkFrom(records, current, visited) + chain
      decreases |Ids(records) - visited|, current.Some?
    {
      var r := current.value;
      WalkStep(records, r, visited, chain, byUuid);
      visited := visited + {r.uuid.value};
      chain := [r] + chain;
      current := if Truthy(r.parent) && r.parent.value in byUuid then Some(byUuid[r.parent.value]) else None;
    }
    WalkDone(records, current, visited, chain);
  }

  ghost predicate Walkable(rs: seq<Record>, current: Option<Record>)
    ensures Walkable(rs, current) && current.Some? ==> current.value.uuid.Some?
  {
    current.Some? ==> current.value in rs && Truthy(current.value.uuid)
  }

  /** The rest of a walk that has come to `current`. */
  ghost function WalkFrom(rs: seq<Record>, current: Option<Record>, visited: set<string>): seq<Record>
    requires Walkable(rs, current)
  {
    if current.Some? then Walk(rs, current.value, visited) else []
  }

  lemma ChainIs(rs: seq<Record>)
    ensures Walkable(rs, Leaf(rs))
    ensures Chain(rs) == WalkFrom(rs, Leaf(rs), {}) + []
  {
    LeafFinds(rs);
  }

  lemma WalkDone(rs: seq<Record>, current: Option<Record>, visited: set<string>, chain: seq<Record>)
    requires Walkable(rs, current) && (current.Some? ==> current.value.uuid.value in visited)
    ensures WalkFrom(rs, current, visited) + chain == chain
  {
  }

  lemma WalkStep(rs: seq<Record>, r: Record, visited: set<string>, chain: seq<Record>, byUuid: map<string, Record>)
    requires Walkable(rs, Some(r)) && r.uuid.value !in visited
    requires byUuid.Keys == Ids(rs) && forall id :: id in byUuid ==> Lookup(rs, id) == Some(byUuid[id])
    ensures |Ids(rs) - (visited + {r.uuid.value})| < |Ids(rs) - visited|
    ensures Truthy(r.parent) ==> r.parent.Some?
    ensures var up := if Truthy(r.parent) && r.parent.value in byUuid then Some(byUuid[r.parent.value]) else None;
            && Walkable(rs, up)
            && WalkFrom(rs, Some(r), visited) + chain == WalkFrom(rs, up, visited + {r.uuid.value}) + ([r] + chain)
  {
    assert r.uuid.value in Ids(rs) - visited;
    Smaller(Ids(rs) - (visited + {r.uuid.value}), Ids(rs) - visited);
    var id := if Truthy(r.parent) then r.parent.value else "";
    LookupFinds(rs, id);
    assert Truthy(r.parent) && id !in byUuid ==> Lookup(rs, id) == None;
  }
}
