/** Keeping only the last turns of a conversation: the log is cut down to a suffix of its chain. */
module Truncation {
  import opened Text
  import opened Transcript
  import opened ContextEdits

  predicate Conversational(kind: string) {
    kind == "user" || kind == "assistant"
  }

  function Kinds(c: seq<Record>): (k: seq<string>)
    ensures |k| == |c| && forall i :: 0 <= i < |c| ==> k[i] == c[i].kind
  {
    seq(|c|, i requires 0 <= i < |c| => c[i].kind)
  }

  /** How many records of these kinds are conversational. */
  function Count(kinds: seq<string>): nat {
    if kinds == [] then 0 else (if Conversational(kinds[0]) then 1 else 0) + Count(kinds[1..])
  }

  lemma {:induction false} CountIs(kinds: seq<string>)
    ensures Count(kinds) == multiset(kinds)["user"] + multiset(kinds)["assistant"]
  {
    if kinds != [] {
      CountIs(kinds[1..]);
      assert kinds == [kinds[0]] + kinds[1..];
    }
  }

  /** Where the conversational record number `q` stands. */
  function Position(kinds: seq<string>, q: nat): (p: nat)
    requires q < Count(kinds)
    ensures p < |kinds| && Conversational(kinds[p])
  {
    if !Conversational(kinds[0]) then 1 + Position(kinds[1..], q)
    else if q == 0 then 0
    else 1 + Position(kinds[1..], q - 1)
  }

  /** From record number `q` on, all but `q` of the conversational records are left. */
  lemma {:induction false} PositionCounts(kinds: seq<string>, q: nat)
    requires q < Count(kinds)
    ensures Count(kinds[Position(kinds, q)..]) == Count(kinds) - q
  {
    var p := Position(kinds, q);
    if !Conversational(kinds[0]) {
      PositionCounts(kinds[1..], q);
      assert kinds[1..][p - 1..] == kinds[p..];
    } else if q > 0 {
      PositionCounts(kinds[1..], q - 1);
      assert kinds[1..][p - 1..] == kinds[p..];
    }
  }

  lemma PositionStep(kinds: seq<string>, q: nat)
    requires q < Count(kinds)
    ensures kinds != []
    ensures !Conversational(kinds[0]) ==> q < Count(kinds[1..]) && Position(kinds, q) == 1 + Position(kinds[1..], q)
    ensures Conversational(kinds[0]) && q == 0 ==> Position(kinds, q) == 0
    ensures Conversational(kinds[0]) && q > 0 ==>
              q - 1 < Count(kinds[1..]) && Position(kinds, q) == 1 + Position(kinds[1..], q - 1)
    ensures Count(kinds) == (if Conversational(kinds[0]) then 1 else 0) + Count(kinds[1..])
  {
  }

  /** Positions seen from a later start. */
  lemma {:induction false} PositionSuffix(kinds: seq<string>, q: nat, q': nat)
    requires q <= q' < Count(kinds)
    ensures var p := Position(kinds, q);
            && q' - q < Count(kinds[p..])
            && Position(kinds, q') == p + Position(kinds[p..], q' - q)
            && (q < q' ==> Position(kinds[p..], q' - q) > 0)
    decreases |kinds|
  {
    hide Count, Position, Conversational;
    var p := Position(kinds, q);
    PositionStep(kinds, q);
    PositionStep(kinds, q');
    if !Conversational(kinds[0]) {
      PositionSuffix(kinds[1..], q, q');
      assert kinds[1..][p - 1..] == kinds[p..];
    } else if q > 0 {
      PositionSuffix(kinds[1..], q - 1, q' - 1);
      assert kinds[1..][p - 1..] == kinds[p..];
    } else {
      assert kinds[0..] == kinds;
    }
  }

  // ----- Cutting a log down to a suffix of its chain -----

  function IdSet(c: seq<Record>): set<Option<string>> {
    set r | r in c :: r.uuid
  }

  /** The records whose uuid is to be kept. */
  function Keep(rs: seq<Record>, keep: set<Option<string>>): seq<Record> {
    if rs == [] then []
    else if rs[0].uuid in keep then [rs[0]] + Keep(rs[1..], keep)
    else Keep(rs[1..], keep)
  }

  /** The first record that carries `id` loses its parent. */
  function Clear(rs: seq<Record>, id: Option<string>): seq<Record> {
    if rs == [] then []
    else if rs[0].uuid == id then [rs[0].(parent := None)] + rs[1..]
    else [rs[0]] + Clear(rs[1..], id)
  }

  /** The log cut down to the records of `c` from number `k` on. */
  function Cut(rs: seq<Record>, c: seq<Record>, k: nat): seq<Record>
    requires k < |c|
  {
    Clear(Keep(rs, IdSet(c[k..])), c[k].uuid)
  }

  datatype Outcome = Done(records: seq<Record>) | TypeError

  /**
   * The log after `truncateToLastN(n)`.  With `n` zero or less the source reads past the end of
   * the conversational records, unless there is nothing to trim.
   */
  ghost function Truncated(rs: seq<Record>, n: int): Outcome {
    var c := Chain(rs);
    var total := Count(Kinds(c));
    if total <= 2 * n then Done(rs)
    else if n <= 0 then TypeError
    else Done(Cut(rs, c, Position(Kinds(c), total - 2 * n)))
  }

  lemma {:induction false} KeepKeeps(rs: seq<Record>, keep: set<Option<string>>)
    ensures forall r :: r in Keep(rs, keep) <==> r in rs && r.uuid in keep
    ensures Unique(rs) ==> Unique(Keep(rs, keep))
  {
    if rs != [] {
      KeepKeeps(rs[1..], keep);
      assert rs == [rs[0]] + rs[1..];
      if Unique(rs) {
        assert Unique(rs[1..]);
        forall r | r in rs[1..] && Truthy(rs[0].uuid) ensures r.uuid != rs[0].uuid {
          var i :| 0 <= i < |rs[1..]| && rs[1..][i] == r;
          assert rs[0].uuid != rs[i + 1].uuid;
        }
      }
    }
  }

  lemma {:induction false} ClearClears(rs: seq<Record>, id: Option<string>)
    requires Unique(rs) && Truthy(id)
    ensures |Clear(rs, id)| == |rs|
    ensures forall i :: 0 <= i < |rs| ==> Clear(rs, id)[i] == if rs[i].uuid == id then rs[i].(parent := None) else rs[i]
  {
    if rs != [] {
      assert rs == [rs[0]] + rs[1..];
      if rs[0].uuid == id {
        forall i | 0 < i < |rs| ensures rs[i].uuid != id { assert rs[0].uuid != rs[i].uuid; }
      } else {
        ClearClears(rs[1..], id);
      }
    }
  }

  /** A repeat-free linked path that ends at the chosen leaf and hangs from nothing is the chain. */
  lemma {:induction false} WalkIs(rs: seq<Record>, c: seq<Record>, visited: set<string>)
    requires c != [] && Linked(rs, c) && NoRepeats(c) && Above(rs, c[0]).None?
    requires forall i :: 0 <= i < |c| ==> c[i] in rs && Truthy(c[i].uuid) && c[i].uuid.value !in visited
    ensures Walk(rs, c[|c| - 1], visited) == c
    decreases |c|
  {
    var k := |c| - 1;
    assert c == c[..k] + [c[k]];
    if k > 0 {
      assert Above(rs, c[k]) == Some(c[k - 1]);
      WalkIs(rs, c[..k], visited + {c[k].uuid.value});
    }
  }

  /** The chain of a cut log, written out. */
  function Suffix(c: seq<Record>, k: nat): (s: seq<Record>)
    requires k < |c|
    ensures |s| == |c| - k
  {
    [c[k].(parent := None)] + c[k + 1..]
  }

  /** What the chain is made of, when uuids are unique. */
  lemma ChainFacts(rs: seq<Record>)
    requires Unique(rs)
    ensures var c := Chain(rs);
            && NoRepeats(c)
            && (forall i :: 0 <= i < |c| ==> c[i] in rs && Truthy(c[i].uuid))
            && (forall i :: 0 < i < |c| ==> c[i].parent == c[i - 1].uuid)
            && (c != [] ==> IsLeaf(c[|c| - 1], Parents(rs), false))
  {
    var c := Chain(rs);
    ChainSound(rs);
    LeafFinds(rs);
    forall i | 0 <= i < |c| ensures c[i] in rs && Truthy(c[i].uuid) { assert c[i] in c; }
    forall i | 0 < i < |c| ensures c[i].parent == c[i - 1].uuid {
      assert Above(rs, c[i]) == Some(c[i - 1]);
      LookupFinds(rs, c[i].parent.value);
    }
  }

  /** The records kept by a cut, before the first one loses its parent, are those of the chain from `k` on. */
  lemma KeptRecords(rs: seq<Record>, c: seq<Record>, k: nat)
    requires Unique(rs) && k < |c|
    requires forall i :: 0 <= i < |c| ==> c[i] in rs && Truthy(c[i].uuid)
    ensures Unique(Keep(rs, IdSet(c[k..])))
    ensures forall r :: r in Keep(rs, IdSet(c[k..])) <==> r in c[k..]
  {
    var keep := IdSet(c[k..]);
    KeepKeeps(rs, keep);
    hide Keep;
    forall r | r in rs && r.uuid in keep ensures r in c[k..] {
      var m :| 0 <= m < |c[k..]| && c[k..][m].uuid == r.uuid;
      assert c[k..][m] == c[k + m];
      UniqueLookup(rs, c[k + m]);
      UniqueLookup(rs, r);
    }
    forall r | r in c[k..] ensures r in rs && r.uuid in keep {
      var m :| 0 <= m < |c[k..]| && c[k..][m] == r;
      assert c[k..][m] == c[k + m];
    }
  }

  /** The records of a cut log are those of the suffix. */
  lemma CutRecords(rs: seq<Record>, c: seq<Record>, k: nat)
    requires Unique(rs) && k < |c| && NoRepeats(c)
    requires forall i :: 0 <= i < |c| ==> c[i] in rs && Truthy(c[i].uuid)
    ensures Unique(Cut(rs, c, k))
    ensures forall r :: r in Cut(rs, c, k) <==> r in Suffix(c, k)
  {
    KeptRecords(rs, c, k);
    var kept := Keep(rs, IdSet(c[k..]));
    hide Keep, IdSet, Lookup;
    ClearClears(kept, c[k].uuid);
    hide Clear;
    ClearedRecords(c, k, kept, Cut(rs, c, k));
  }

  /** Both lists lose the parent of the same record. */
  lemma ClearedRecords(c: seq<Record>, k: nat, kept: seq<Record>, out: seq<Record>)
    requires k < |c| && NoRepeats(c) && |out| == |kept|
    requires forall r :: r in kept <==> r in c[k..]
    requires forall i :: 0 <= i < |kept| ==>
               out[i] == if kept[i].uuid == c[k].uuid then kept[i].(parent := None) else kept[i]
    ensures forall r :: r in out <==> r in Suffix(c, k)
  {
    var s := Suffix(c, k);
    forall r | r in out ensures r in s {
      var i :| 0 <= i < |out| && out[i] == r;
      assert kept[i] in kept;
      var m :| 0 <= m < |c[k..]| && c[k..][m] == kept[i];
      assert c[k + m] == kept[i];
      assert s[m] == r;
    }
    forall r | r in s ensures r in out {
      var m :| 0 <= m < |s| && s[m] == r;
      assert c[k..][m] == c[k + m];
      assert c[k + m] in kept;
      var i :| 0 <= i < |kept| && kept[i] == c[k + m];
      assert out[i] in out;
    }
  }

  /** `out` holds exactly the records of `s`, each but the first hanging from the one before it. */
  ghost predicate IsPath(out: seq<Record>, s: seq<Record>) {
    && s != [] && NoRepeats(s) && (forall r :: r in out <==> r in s)
    && (forall i :: 0 <= i < |s| ==> Truthy(s[i].uuid))
    && (forall i :: 0 < i < |s| ==> s[i].parent == s[i - 1].uuid)
    && !Truthy(s[0].parent)
  }

  lemma PathParents(out: seq<Record>, s: seq<Record>)
    requires IsPath(out, s)
    ensures forall i :: 0 <= i < |s| ==> (s[i].uuid.value in Parents(out) <==> i < |s| - 1)
  {
    forall i | 0 <= i < |s| - 1 ensures s[i].uuid.value in Parents(out) {
      assert s[i + 1] in s && s[i + 1].parent == s[i].uuid;
    }
    var end := s[|s| - 1];
    forall r | r in out && Truthy(r.parent) ensures r.parent != end.uuid {
      var i :| 0 <= i < |s| && s[i] == r;
      assert i > 0 && s[i - 1].uuid != end.uuid;
    }
  }

  /** A log made of the records of a linked path has one leaf, the path's end. */
  lemma PathLeaf(out: seq<Record>, s: seq<Record>)
    requires IsPath(out, s)
    ensures Leaf(out) == Some(s[|s| - 1])
  {
    var end := s[|s| - 1];
    PathParents(out, s);
    LastLeafFinds(out, Parents(out), true);
    LastLeafFinds(out, Parents(out), false);
    hide LastLeaf, Parents;
    assert end in out;
    forall r | r in out && r.uuid.value !in Parents(out) ensures r == end {
      var i :| 0 <= i < |s| && s[i] == r;
    }
  }

  /** Cutting a log with unique uuids at any place of its chain leaves exactly that suffix of the chain. */
  lemma CutChain(rs: seq<Record>, k: nat)
    requires Unique(rs) && k < |Chain(rs)|
    ensures Chain(Cut(rs, Chain(rs), k)) == Suffix(Chain(rs), k)
    ensures Unique(Cut(rs, Chain(rs), k))
  {
    var c := Chain(rs);
    ChainFacts(rs);
    CutRecords(rs, c, k);
    var out, s := Cut(rs, c, k), Suffix(c, k);
    hide Cut, Lookup, Leaf, Parents;
    SuffixPath(out, c, k);
    PathLeaf(out, s);
    LeafFinds(out);
    WalkIs(out, s, {});
  }

  lemma SuffixPath(out: seq<Record>, c: seq<Record>, k: nat)
    requires Unique(out) && k < |c| && NoRepeats(c)
    requires forall i :: 0 < i < |c| ==> c[i].parent == c[i - 1].uuid
    requires forall i :: 0 <= i < |c| ==> Truthy(c[i].uuid)
    requires forall r :: r in out <==> r in Suffix(c, k)
    ensures var s := Suffix(c, k);
            && Linked(out, s) && NoRepeats(s) && Above(out, s[0]).None?
            && (forall i :: 0 <= i < |s| ==> s[i] in out && Truthy(s[i].uuid))
            && (forall i :: 0 < i < |s| ==> s[i].parent == s[i - 1].uuid)
  {
    var s := Suffix(c, k);
    forall i | 0 <= i < |s| ensures s[i] in out && s[i].uuid == c[k + i].uuid { assert s[i] in s; }
    forall i | 0 < i < |s| ensures Above(out, s[i]) == Some(s[i - 1]) {
      UniqueLookup(out, s[i - 1]);
    }
  }

  // ----- truncateToLastN -----

  lemma SuffixKinds(c: seq<Record>, k: nat)
    requires k < |c|
    ensures Kinds(Suffix(c, k)) == Kinds(c)[k..]
    ensures Uuids(Suffix(c, k)) == Uuids(c)[k..]
  {
  }

  /**
   * With unique uuids, truncating to `n` turns leaves a log whose chain is a suffix of the old one,
   * starts with a conversational record, and has `2n` of them, or all there were; a log with no more
   * is not touched.
   */
  lemma TruncateChain(rs: seq<Record>, n: int)
    requires Unique(rs) && n >= 1
    ensures Truncated(rs, n).Done? && Unique(Truncated(rs, n).records)
    ensures Count(Kinds(Chain(Truncated(rs, n).records))) == Min(2 * n, Count(Kinds(Chain(rs))))
    ensures Count(Kinds(Chain(rs))) <= 2 * n ==> Truncated(rs, n).records == rs
    ensures Count(Kinds(Chain(rs))) > 2 * n ==>
      var c := Chain(rs);
      var k := Position(Kinds(c), Count(Kinds(c)) - 2 * n);
      && Conversational(c[k].kind)
      && Chain(Truncated(rs, n).records) == Suffix(c, k)
      && ChainIds(Truncated(rs, n).records) == ChainIds(rs)[k..]
  {
    hide Chain, Unique, Cut, Count;
    var c := Chain(rs);
    var total := Count(Kinds(c));
    if total > 2 * n {
      var k := Position(Kinds(c), total - 2 * n);
      CutChain(rs, k);
      SuffixKinds(c, k);
      PositionCounts(Kinds(c), total - 2 * n);
    }
  }

  /** The same in the kinds' own names: `n` user and assistant turns each are kept, from such a turn on. */
  lemma TruncatedTurns(rs: seq<Record>, n: int)
    requires Unique(rs) && n >= 1
    ensures Truncated(rs, n).Done?
    ensures var was, now := multiset(Kinds(Chain(rs))), Kinds(Chain(Truncated(rs, n).records));
            var turns := was["user"] + was["assistant"];
            && multiset(now)["user"] + multiset(now)["assistant"] == (if turns <= 2 * n then turns else 2 * n)
            && (turns > 2 * n ==> now != [] && (now[0] == "user" || now[0] == "assistant"))
            && (turns <= 2 * n ==> Truncated(rs, n).records == rs)
  {
    TruncateChain(rs, n);
    hide Chain, Truncated, Count;
    CountIs(Kinds(Chain(rs)));
    CountIs(Kinds(Chain(Truncated(rs, n).records)));
  }

  lemma KeepCons(r: Record, rest: seq<Record>, keep: set<Option<string>>)
    ensures Keep([r] + rest, keep) == if r.uuid in keep then [r] + Keep(rest, keep) else Keep(rest, keep)
  {
    assert ([r] + rest)[1..] == rest;
  }

  lemma ClearCons(r: Record, rest: seq<Record>, id: Option<string>)
    ensures Clear([r] + rest, id) == if r.uuid == id then [r.(parent := None)] + rest else [r] + Clear(rest, id)
  {
    assert ([r] + rest)[1..] == rest;
  }

  lemma {:induction false} KeepTwice(rs: seq<Record>, keep: set<Option<string>>, keep': set<Option<string>>)
    requires keep' <= keep
    ensures Keep(Keep(rs, keep), keep') == Keep(rs, keep')
  {
    if rs != [] {
      KeepTwice(rs[1..], keep, keep');
      if rs[0].uuid in keep { KeepCons(rs[0], Keep(rs[1..], keep), keep'); }
    }
  }

  /** A second, smaller cut does not see the record the first one rerooted. */
  lemma {:induction false} KeepAfterClear(rs: seq<Record>, keep: set<Option<string>>,
                                 keep': set<Option<string>>, id: Option<string>)
    requires keep' <= keep && id !in keep'
    ensures Keep(Clear(Keep(rs, keep), id), keep') == Keep(rs, keep')
  {
    if rs != [] {
      var r, rest := rs[0], Keep(rs[1..], keep);
      assert rs == [r] + rs[1..];
      KeepCons(r, rs[1..], keep);
      KeepCons(r, rs[1..], keep');
      KeepAfterClear(rs[1..], keep, keep', id);
      hide Keep, Clear;
      if r.uuid in keep {
        ClearCons(r, rest, id);
        if r.uuid == id {
          KeepTwice(rs[1..], keep, keep');
          KeepCons(r.(parent := None), rest, keep');
        } else {
          KeepCons(r, Clear(rest, id), keep');
        }
      }
    }
  }

  /** Cutting twice is cutting once, file and all. */
  lemma CutTwice(rs: seq<Record>, c: seq<Record>, k: nat, j: nat)
    requires k < |c| && 0 < j < |c| - k && NoRepeats(c)
    ensures Cut(Cut(rs, c, k), Suffix(c, k), j) == Cut(rs, c, k + j)
  {
    var s := Suffix(c, k);
    var keep, keep' := IdSet(c[k..]), IdSet(c[k + j..]);
    assert s[j..] == c[k + j..];
    forall id | id in keep' ensures id in keep && id != c[k].uuid {
      var m :| 0 <= m < |c[k + j..]| && c[k + j..][m].uuid == id;
      assert c[k..][j + m] == c[k + j + m];
      assert c[k..][j + m] in c[k..];
    }
    KeepAfterClear(rs, keep, keep', c[k].uuid);
  }

  lemma TruncatedIs(rs: seq<Record>, n: int)
    requires 1 <= n && Count(Kinds(Chain(rs))) > 2 * n
    ensures var c := Chain(rs);
            && Truncated(rs, n) == Done(Cut(rs, c, Position(Kinds(c), Count(Kinds(c)) - 2 * n)))
  {
  }

  lemma TruncateSmaller(rs: seq<Record>, m: int, n: int)
    requires Unique(rs) && 1 <= n < m && Count(Kinds(Chain(rs))) > 2 * m
    ensures Truncated(rs, m).Done? && Truncated(Truncated(rs, m).records, n) == Truncated(rs, n)
  {
    hide *;
    var c := Chain(rs);
    var kinds, total := Kinds(c), Count(Kinds(c));
    TruncatedIs(rs, m);
    TruncatedIs(rs, n);
    var k := Position(kinds, total - 2 * m);
    var once := Cut(rs, c, k);
    CutChain(rs, k);
    SuffixKinds(c, k);
    PositionCounts(kinds, total - 2 * m);
    PositionSuffix(kinds, total - 2 * m, total - 2 * n);
    var j := Position(kinds[k..], 2 * m - 2 * n);
    TruncatedIs(once, n);
    ChainFacts(rs);
    CutTwice(rs, c, k, j);
  }

  /** Truncating twice is truncating once, to the smaller number of turns, record for record. */
  lemma TruncateTwice(rs: seq<Record>, m: int, n: int)
    requires Unique(rs) && m >= 1 && n >= 1
    ensures Truncated(rs, m).Done? && Truncated(Truncated(rs, m).records, n) == Truncated(rs, Min(m, n))
  {
    hide Chain, Unique, Cut, Count, Position, Kinds;
    TruncateChain(rs, m);
    if Count(Kinds(Chain(rs))) > 2 * m && n < m {
      TruncateSmaller(rs, m, n);
    } else {
      TruncatedAll(rs, n);
      TruncatedAll(Truncated(rs, m).records, n);
    }
  }

  lemma TruncatedAll(rs: seq<Record>, n: int)
    ensures Count(Kinds(Chain(rs))) <= 2 * n ==> Truncated(rs, n) == Done(rs)
  {
  }

  // ----- truncateToLastN as written -----

  function Conversation(c: seq<Record>): seq<Record> {
    if c == [] then [] else (if Conversational(c[0].kind) then [c[0]] else []) + Conversation(c[1..])
  }

  lemma {:induction false} ConversationAt(c: seq<Record>)
    ensures |Conversation(c)| == Count(Kinds(c))
    ensures forall q :: 0 <= q < Count(Kinds(c)) ==> Conversation(c)[q] == c[Position(Kinds(c), q)]
  {
    if c != [] {
      ConversationStep(c);
      hide Count, Position, Conversation, Conversational;
      assert Kinds(c)[1..] == Kinds(c[1..]);
      CountStep(Kinds(c));
      ConversationAt(c[1..]);
      forall q | 0 <= q < Count(Kinds(c)) ensures Conversation(c)[q] == c[Position(Kinds(c), q)] {
        ConversationHead(c, q);
      }
    }
  }

  lemma ConversationHead(c: seq<Record>, q: nat)
    requires c != [] && q < Count(Kinds(c)) && Kinds(c)[1..] == Kinds(c[1..])
    requires |Conversation(c[1..])| == Count(Kinds(c[1..]))
    requires forall p :: 0 <= p < Count(Kinds(c[1..])) ==> Conversation(c[1..])[p] == c[1..][Position(Kinds(c[1..]), p)]
    ensures q < |Conversation(c)| && Conversation(c)[q] == c[Position(Kinds(c), q)]
  {
    ConversationStep(c);
    hide Count, Position, Conversation, Conversational;
    PositionStep(Kinds(c), q);
  }

  lemma ConversationStep(c: seq<Record>)
    requires c != []
    ensures Conversation(c) == (if Conversational(c[0].kind) then [c[0]] else []) + Conversation(c[1..])
  {
  }

  lemma CountStep(kinds: seq<string>)
    requires kinds != []
    ensures Count(kinds) == (if Conversational(kinds[0]) then 1 else 0) + Count(kinds[1..])
  {
  }

  /** Where the first record with this uuid stands, or -1. */
  function FindIndex(c: seq<Record>, id: Option<string>): (i: int)
    ensures -1 <= i < |c|
    ensures i >= 0 ==> c[i].uuid == id
    ensures forall k :: 0 <= k < (if i == -1 then |c| else i) ==> c[k].uuid != id
  {
    if c == [] then -1
    else if c[0].uuid == id then 0
    else
      var i := FindIndex(c[1..], id);
      assert c == [c[0]] + c[1..];
      if i == -1 then -1 else i + 1
  }

  /** `truncateToLastN` on the records of the file; on an error the file is not written. */
  method TruncateToLastN(records: seq<Record>, n: int) returns (res: Outcome)
    ensures res == Truncated(records, n)
  {
    hide *;
    var chain := BuildChain(records);
    var conversational := Conversation(chain);
    var keepCount := n * 2;
    TruncatedCases(records, n);
    if |conversational| <= keepCount {
      return Done(records);
    }
    var keepFrom := |conversational| - keepCount;
    if keepFrom >= |conversational| {
      return TypeError; // conversational[keepFrom] is undefined
    }
    var keepUuids := IdSet(conversational[keepFrom..]);
    var firstKeptUuid := conversational[keepFrom].uuid;
    var firstKeptIdx := FindIndex(chain, firstKeptUuid);
    FirstKept(records, keepFrom);
    ghost var early := keepUuids;
    IdSetNil(chain, firstKeptIdx, early);
    for i := firstKeptIdx to |chain|
      invariant keepUuids == early + IdSet(chain[firstKeptIdx..i])
    {
      IdSetMore(chain, firstKeptIdx, i);
      keepUuids := keepUuids + {chain[i].uuid};
    }
    assert chain[firstKeptIdx..|chain|] == chain[firstKeptIdx..];
    assert keepUuids == IdSet(chain[firstKeptIdx..]);
    var kept := Keep(records, keepUuids);
    res := Done(Clear(kept, firstKeptUuid));
  }

  lemma IdSetNil(c: seq<Record>, k: nat, early: set<Option<string>>)
    requires k <= |c|
    ensures early == early + IdSet(c[k..k])
  {
  }

  lemma IdSetMore(c: seq<Record>, k: nat, i: nat)
    requires k <= i < |c|
    ensures IdSet(c[k..i + 1]) == IdSet(c[k..i]) + {c[i].uuid}
  {
    assert c[k..i + 1] == c[k..i] + [c[i]];
  }

  lemma TruncatedCases(rs: seq<Record>, n: int)
    ensures var c := Chain(rs);
            var total := |Conversation(c)|;
            && (total <= n * 2 ==> Truncated(rs, n) == Done(rs))
            && (total > n * 2 && n <= 0 ==> Truncated(rs, n) == TypeError)
            && (total > n * 2 && n > 0 ==>
                  && total - n * 2 < Count(Kinds(c))
                  && Truncated(rs, n) == Done(Clear(Keep(rs, IdSet(c[Position(Kinds(c), total - n * 2)..])),
                                                    c[Position(Kinds(c), total - n * 2)].uuid)))
  {
    ConversationAt(Chain(rs));
    hide Chain, Conversation, Position, Count, Keep, Clear, IdSet;
  }

  lemma FirstKept(rs: seq<Record>, q: nat)
    requires q < |Conversation(Chain(rs))|
    ensures var c := Chain(rs);
            && q < Count(Kinds(c))
            && Conversation(c)[q].uuid == c[Position(Kinds(c), q)].uuid
            && FindIndex(c, Conversation(c)[q].uuid) == Position(Kinds(c), q)
            && IdSet(Conversation(c)[q..]) <= IdSet(c[Position(Kinds(c), q)..])
  {
    ChainSound(rs);
    hide Chain;
    ConversationAt(Chain(rs));
    hide Conversation;
    ConversationTail(Chain(rs), q);
  }

  /** The conversational records from number `q` on stand in the chain from its place on. */
  lemma {:induction false} ConversationTail(c: seq<Record>, q: nat)
    requires q < Count(Kinds(c))
    ensures q < |Conversation(c)| && IdSet(Conversation(c)[q..]) <= IdSet(c[Position(Kinds(c), q)..])
  {
    hide Count, Position, Conversation;
    var p := Position(Kinds(c), q);
    ConversationAt(c);
    forall x | x in Conversation(c)[q..] ensures x in c[p..] {
      var m :| 0 <= m < |Conversation(c)[q..]| && Conversation(c)[q..][m] == x;
      PositionSuffix(Kinds(c), q, q + m);
      assert c[p..][Position(Kinds(c), q + m) - p] == x;
    }
  }
}
