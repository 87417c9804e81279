/**
 * The two ways the patch engine replaces text: rewriting the first match over and over
 * until none is left, and one left-to-right pass over disjoint matches.  Letters are
 * abstract, so the same facts serve strings and byte buffers.
 */
module Rewrite {
  import opened Text

  /** The text with its first match replaced, for a replacement without `$` patterns. */
  function ReplaceFirst<T(==)>(s: seq<T>, f: seq<T>, r: seq<T>): seq<T> {
    var i := IndexOf(s, f);
    if i == -1 then s else s[..i] + r + s[i + |f|..]
  }

  /** The text after `n` turns of the replace loop. */
  function Iterate<T(==)>(s: seq<T>, f: seq<T>, r: seq<T>, n: nat): seq<T> {
    if n == 0 then s else ReplaceFirst(Iterate(s, f, r, n - 1), f, r)
  }

  /** The loop leaves after exactly `n` turns. */
  ghost predicate StopsAfter<T>(s: seq<T>, f: seq<T>, r: seq<T>, n: nat) {
    && !Includes(Iterate(s, f, r, n), f)
    && forall k :: 0 <= k < n ==> Includes(Iterate(s, f, r, k), f)
  }

  /** The loop leaves at all; otherwise it runs for ever. */
  ghost predicate Halts<T>(s: seq<T>, f: seq<T>, r: seq<T>) {
    exists n: nat :: StopsAfter(s, f, r, n)
  }

  /** As long as the search text occurs, its first occurrence is replaced; counts the replacements. */
  method ReplaceLoop<T(==)>(s: seq<T>, f: seq<T>, r: seq<T>) returns (result: seq<T>, count: nat)
    requires Halts(s, f, r)
    ensures StopsAfter(s, f, r, count) && result == Iterate(s, f, r, count)
  {
    hide IndexFrom, ReplaceFirst;
    ghost var n: nat :| StopsAfter(s, f, r, n);
    result, count := s, 0;
    while Includes(result, f)
      invariant result == Iterate(s, f, r, count)
      invariant forall k :: 0 <= k < count ==> Includes(Iterate(s, f, r, k), f)
      invariant count <= n
      decreases n - count
    {
      result := ReplaceFirst(result, f, r);
      count := count + 1;
    }
  }

  // ----- When the loop ends -----

  lemma {:induction false} IterateFront<T>(s: seq<T>, f: seq<T>, r: seq<T>, n: nat)
    ensures Iterate(s, f, r, n + 1) == Iterate(ReplaceFirst(s, f, r), f, r, n)
  {
    hide IndexFrom, ReplaceFirst;
    if n == 0 {
      assert Iterate(s, f, r, 1) == ReplaceFirst(Iterate(s, f, r, 0), f, r);
    } else {
      IterateFront(s, f, r, n - 1);
    }
  }

  lemma StopsFront<T>(s: seq<T>, f: seq<T>, r: seq<T>, n: nat)
    requires Includes(s, f) && StopsAfter(ReplaceFirst(s, f, r), f, r, n)
    ensures StopsAfter(s, f, r, n + 1)
  {
    IterateFront(s, f, r, n);
    forall k | 0 <= k < n + 1 ensures Includes(Iterate(s, f, r, k), f) {
      if k > 0 { IterateFront(s, f, r, k - 1); }
    }
  }

  lemma HaltsFront<T>(s: seq<T>, f: seq<T>, r: seq<T>)
    requires Includes(s, f) && Halts(ReplaceFirst(s, f, r), f, r)
    ensures Halts(s, f, r)
  {
    var n: nat :| StopsAfter(ReplaceFirst(s, f, r), f, r, n);
    StopsFront(s, f, r, n);
  }

  lemma HaltsWithoutMatch<T>(s: seq<T>, f: seq<T>, r: seq<T>)
    requires !Includes(s, f)
    ensures StopsAfter(s, f, r, 0) && Halts(s, f, r)
  {
    assert Iterate(s, f, r, 0) == s;
    assert StopsAfter(s, f, r, 0);
  }

  /** Shorter replacements make the text shorter every turn. */
  lemma {:induction false} ShorterHalts<T>(s: seq<T>, f: seq<T>, r: seq<T>)
    requires |r| < |f|
    ensures Halts(s, f, r)
    decreases |s|
  {
    if Includes(s, f) {
      ShorterHalts(ReplaceFirst(s, f, r), f, r);
      HaltsFront(s, f, r);
    } else {
      HaltsWithoutMatch(s, f, r);
    }
  }

  function Pow2(n: nat): (p: nat)
    ensures p > 0
  {
    if n == 0 then 1 else 2 * Pow2(n - 1)
  }

  /** The places where `a` stands, read as a binary number with the first place most significant. */
  ghost function Bits<T>(s: seq<T>, a: T): (v: nat)
    ensures v < Pow2(|s|)
  {
    if s == [] then 0 else (if s[0] == a then Pow2(|s| - 1) else 0) + Bits(s[1..], a)
  }

  lemma {:induction false} BitsDrop<T>(s: seq<T>, t: seq<T>, a: T, p: nat)
    requires |s| == |t| && p < |s|
    requires s[..p] == t[..p] && s[p] == a && t[p] != a
    ensures Bits(t, a) < Bits(s, a)
  {
    if p > 0 {
      assert s[1..][..p - 1] == s[..p][1..] && t[1..][..p - 1] == t[..p][1..];
      assert s[0] == s[..p][0] == t[..p][0] == t[0];
      BitsDrop(s[1..], t[1..], a, p - 1);
    }
  }

  /** The first letter on which two texts of one length disagree. */
  lemma FirstDifference<T>(f: seq<T>, r: seq<T>) returns (j: nat)
    requires |f| == |r| && f != r
    ensures j < |f| && f[..j] == r[..j] && f[j] != r[j]
    decreases |f|
  {
    assert f == [f[0]] + f[1..] && r == [r[0]] + r[1..];
    if f[0] != r[0] {
      j := 0;
    } else {
      var i := FirstDifference(f[1..], r[1..]);
      j := i + 1;
      assert f[..j] == [f[0]] + f[1..][..i] && r[..j] == [r[0]] + r[1..][..i];
    }
  }

  /** One turn with an equally long, different replacement lowers `Bits` of the first letter it changes. */
  lemma SameLengthTurn<T>(s: seq<T>, f: seq<T>, r: seq<T>, j: nat)
    requires |f| == |r| && j < |f| && f[..j] == r[..j] && f[j] != r[j]
    requires Includes(s, f)
    ensures |ReplaceFirst(s, f, r)| == |s| && Bits(ReplaceFirst(s, f, r), f[j]) < Bits(s, f[j])
  {
    var i := IndexOf(s, f);
    var t := ReplaceFirst(s, f, r);
    OccursPointwise(s, f, i);
    forall k | 0 <= k < i + j ensures s[k] == t[k] {
      if k >= i { assert f[..j][k - i] == r[..j][k - i]; }
    }
    assert s[..i + j] == t[..i + j];
    BitsDrop(s, t, f[j], i + j);
  }

  lemma {:induction false} SameLengthHalts<T>(s: seq<T>, f: seq<T>, r: seq<T>, j: nat)
    requires |f| == |r| && j < |f| && f[..j] == r[..j] && f[j] != r[j]
    ensures Halts(s, f, r)
    decreases Bits(s, f[j])
  {
    if Includes(s, f) {
      SameLengthTurn(s, f, r, j);
      SameLengthHalts(ReplaceFirst(s, f, r), f, r, j);
      HaltsFront(s, f, r);
    } else {
      HaltsWithoutMatch(s, f, r);
    }
  }

  lemma OccursWithin<T>(a: seq<T>, r: seq<T>, b: seq<T>, f: seq<T>, i: nat)
    requires OccursAt(r, f, i)
    ensures OccursAt(a + r + b, f, |a| + i)
  {
    assert (a + r + b)[|a| + i..|a| + i + |f|] == r[i..i + |f|];
  }

  /** A replacement that contains the search text never lets the loop end. */
  lemma {:induction false} SelfFeeding<T>(s: seq<T>, f: seq<T>, r: seq<T>, n: nat)
    requires Includes(r, f) && Includes(s, f)
    ensures Includes(Iterate(s, f, r, n), f)
  {
    hide IndexFrom;
    if n > 0 {
      SelfFeeding(s, f, r, n - 1);
      var t := Iterate(s, f, r, n - 1);
      var i := IndexOf(t, f);
      OccursWithin(t[..i], r, t[i + |f|..], f, IndexOf(r, f));
    }
  }

  /** With a replacement of the same length the loop ends exactly when it has nothing to do or changes something. */
  lemma SameLengthHaltsExactly<T>(s: seq<T>, f: seq<T>, r: seq<T>)
    requires |f| == |r|
    ensures Halts(s, f, r) <==> !Includes(s, f) || r != f
  {
    if !Includes(s, f) {
      HaltsWithoutMatch(s, f, r);
    } else if r != f {
      var j := FirstDifference(f, r);
      SameLengthHalts(s, f, r, j);
    } else {
      assert OccursAt(r, f, 0);
      forall n: nat ensures !StopsAfter(s, f, r, n) { SelfFeeding(s, f, r, n); }
    }
  }

  // ----- One pass over disjoint matches -----

  /** The disjoint matches a left-to-right scan starting at `from` meets. */
  function Starts<T(==)>(s: seq<T>, f: seq<T>, from: nat): seq<nat>
    requires f != []
    decreases |s| - from
  {
    var i := IndexFrom(s, f, from);
    if i == -1 then [] else [i] + Starts(s, f, i + |f|)
  }

  /** `s[from..]` with every disjoint match replaced. */
  function OnePassFrom<T(==)>(s: seq<T>, f: seq<T>, r: seq<T>, from: nat): seq<T>
    requires f != [] && from <= |s|
    decreases |s| - from
  {
    var i := IndexFrom(s, f, from);
    if i == -1 then s[from..] else s[from..i] + r + OnePassFrom(s, f, r, i + |f|)
  }

  function OnePass<T(==)>(s: seq<T>, f: seq<T>, r: seq<T>): seq<T>
    requires f != []
  {
    OnePassFrom(s, f, r, 0)
  }

  /** Some match in `starts` covers place `p`. */
  ghost predicate Covered(starts: seq<nat>, m: nat, p: int) {
    exists k :: 0 <= k < |starts| && starts[k] <= p < starts[k] + m
  }

  ghost predicate Disjoint(starts: seq<nat>, m: nat) {
    forall i, j :: 0 <= i < j < |starts| ==> starts[i] + m <= starts[j]
  }

  /** The scan's matches are occurrences, in order and disjoint. */
  lemma {:induction false} StartsDisjoint<T>(s: seq<T>, f: seq<T>, from: nat)
    requires f != []
    ensures forall k :: 0 <= k < |Starts(s, f, from)| ==>
              from <= Starts(s, f, from)[k] && OccursAt(s, f, Starts(s, f, from)[k])
    ensures Disjoint(Starts(s, f, from), |f|)
    decreases |s| - from
  {
    hide IndexFrom, OccursAt;
    var i := IndexFrom(s, f, from);
    if i != -1 {
      StartsDisjoint(s, f, i + |f|);
    }
  }

  /** Every occurrence begins inside one of the scan's matches. */
  lemma {:induction false} StartsComplete<T>(s: seq<T>, f: seq<T>, from: nat, p: nat)
    requires f != [] && from <= p && OccursAt(s, f, p)
    ensures Covered(Starts(s, f, from), |f|, p)
    decreases |s| - from
  {
    hide IndexFrom, OccursAt;
    var i := IndexFrom(s, f, from);
    var all := Starts(s, f, from);
    assert all[0] == i;
    if p >= i + |f| {
      var rest := Starts(s, f, i + |f|);
      StartsComplete(s, f, i + |f|, p);
      var k :| 0 <= k < |rest| && rest[k] <= p < rest[k] + |f|;
      assert all[k + 1] == rest[k];
    }
  }

  lemma {:induction false} OnePassLength<T>(s: seq<T>, f: seq<T>, r: seq<T>, from: nat)
    requires f != [] && |r| == |f| && from <= |s|
    ensures |OnePassFrom(s, f, r, from)| == |s| - from
    decreases |s| - from
  {
    hide IndexFrom, OccursAt;
    var i := IndexFrom(s, f, from);
    if i != -1 { OnePassLength(s, f, r, i + |f|); }
  }

  /** With an equally long replacement the pass changes nothing outside its matches. */
  lemma {:induction false} OnePassOutside<T>(s: seq<T>, f: seq<T>, r: seq<T>, from: nat, p: nat)
    requires f != [] && |r| == |f| && from <= p < |s|
    requires !Covered(Starts(s, f, from), |f|, p)
    ensures |OnePassFrom(s, f, r, from)| == |s| - from && OnePassFrom(s, f, r, from)[p - from] == s[p]
    decreases |s| - from
  {
    hide IndexFrom, OccursAt;
    OnePassLength(s, f, r, from);
    var i := IndexFrom(s, f, from);
    if i != -1 {
      var j := i + |f|;
      OnePassLength(s, f, r, j);
      OneMatch(s, f, r, from);
      NotCovered(s, f, from, p);
      hide OnePassFrom, Starts, Covered;
      if p >= j { OnePassOutside(s, f, r, j, p); }
      PartAt(s[from..i], r, OnePassFrom(s, f, r, j), p - from);
    }
  }

  lemma NotCovered<T>(s: seq<T>, f: seq<T>, from: nat, p: nat)
    requires f != [] && IndexFrom(s, f, from) != -1 && !Covered(Starts(s, f, from), |f|, p)
    ensures var i := IndexFrom(s, f, from); !(i <= p < i + |f|) && !Covered(Starts(s, f, i + |f|), |f|, p)
  {
    hide IndexFrom;
    var all, rest := Starts(s, f, from), Starts(s, f, IndexFrom(s, f, from) + |f|);
    assert all[0] == IndexFrom(s, f, from) && |all| == |rest| + 1;
    forall k | 0 <= k < |rest| ensures !(rest[k] <= p < rest[k] + |f|) { assert all[k + 1] == rest[k]; }
  }

  lemma PartAt<T>(x: seq<T>, y: seq<T>, z: seq<T>, k: nat)
    requires k < |x| + |y| + |z|
    ensures (x + y + z)[k] == if k < |x| then x[k] else if k < |x| + |y| then y[k - |x|] else z[k - |x| - |y|]
  {
  }

  /** With an equally long replacement the pass writes `r` over each of its matches. */
  lemma {:induction false} OnePassInside<T>(s: seq<T>, f: seq<T>, r: seq<T>, from: nat, k: nat, q: nat)
    requires f != [] && |r| == |f| && from <= |s| && k < |Starts(s, f, from)| && q < |f|
    ensures |OnePassFrom(s, f, r, from)| == |s| - from
    ensures from <= Starts(s, f, from)[k] && Starts(s, f, from)[k] + |f| <= |s|
    ensures OnePassFrom(s, f, r, from)[Starts(s, f, from)[k] - from + q] == r[q]
    decreases |s| - from
  {
    hide IndexFrom, OccursAt;
    OnePassLength(s, f, r, from);
    var i := IndexFrom(s, f, from);
    var j := i + |f|;
    OnePassLength(s, f, r, j);
    if k > 0 {
      OnePassInside(s, f, r, j, k - 1, q);
      assert Starts(s, f, from)[k] == Starts(s, f, j)[k - 1];
    }
  }

  // ----- When the two agree -----

  /** A suffix of `r` is a prefix of `f`: text after a match can complete a new one. */
  predicate RightOverlap<T(==)>(f: seq<T>, r: seq<T>, k: nat) {
    0 < k < |f| && k <= |r| && r[|r| - k..] == f[..k]
  }

  /** A prefix of `r` is a suffix of `f`, and the text needed before it does not already hold an earlier match. */
  predicate LeftOverlap<T(==)>(f: seq<T>, r: seq<T>, k: nat) {
    && 0 < k < |f| && k <= |r| && r[..k] == f[|f| - k..]
    && IndexOf(f[..|f| - k] + f, f) == |f| - k
  }

  /** `r` lies strictly inside `f`, and the text needed around it does not already hold an earlier match. */
  predicate Inside<T(==)>(f: seq<T>, r: seq<T>, j: nat) {
    && 0 < j && j + |r| < |f| && f[j..j + |r|] == r
    && IndexOf(f[..j] + f + f[j + |r|..], f) == j
  }

  /** No match can come into being that begins before the replacement and reaches into it. */
  ghost predicate FreeLeft<T>(f: seq<T>, r: seq<T>) {
    (forall k: nat :: !LeftOverlap(f, r, k)) && forall j: nat :: !Inside(f, r, j)
  }

  /** No match can come into being that begins in the replacement and reaches out of it. */
  ghost predicate FreeRight<T>(f: seq<T>, r: seq<T>) {
    forall k: nat :: !RightOverlap(f, r, k)
  }

  /** No match can ever come into being around a replacement. */
  ghost predicate Inert<T>(f: seq<T>, r: seq<T>) {
    f != [] && !Includes(r, f) && FreeRight(f, r) && FreeLeft(f, r)
  }

  /** A window into a text that sees a match only at `x` when the text sees none before `p + x`. */
  lemma WindowFirst<T>(t: seq<T>, f: seq<T>, p: nat, q: nat, x: nat)
    requires p <= q <= |t| && x + |f| <= q - p && OccursAt(t, f, p + x)
    requires forall i :: 0 <= i < p + x ==> !OccursAt(t, f, i)
    ensures IndexOf(t[p..q], f) == x
  {
    hide IndexFrom;
    var w := t[p..q];
    forall i | 0 <= i <= x ensures OccursAt(w, f, i) <==> OccursAt(t, f, p + i) {
      SubSlice(t, p, q, i, i + |f|);
    }
    IndexFromIs(w, f, 0, x);
  }

  lemma InPart<T>(a: seq<T>, x: seq<T>, b: seq<T>, f: seq<T>, i: nat)
    requires i + |f| <= |x|
    ensures OccursAt(a + x + b, f, |a| + i) <==> OccursAt(x, f, i)
  {
    assert (a + x + b)[|a| + i..|a| + i + |f|] == x[i..i + |f|];
  }

  lemma SubSlice<T>(t: seq<T>, p: nat, q: nat, x: nat, y: nat)
    requires p <= q <= |t| && x <= y <= q - p
    ensures t[p..q][x..y] == t[p + x..p + y]
  {
    var u, v := t[p..q][x..y], t[p + x..p + y];
    assert |u| == |v|;
    forall i | 0 <= i < |u| ensures u[i] == v[i] { assert t[p..q][x + i] == t[p + x + i]; }
  }

  /**
   * Where an occurrence can meet a replacement that took the place of the first match:
   * before it, inside it, over its left end, over its right end, or around it.
   */
  lemma NoNewMatch<T>(a: seq<T>, b: seq<T>, f: seq<T>, r: seq<T>, p: nat)
    requires Inert(f, r)
    requires IndexOf(a + f + b, f) == |a|
    requires p < |a| + |r|
    ensures !OccursAt(a + r + b, f, p)
  {
    hide IndexFrom, OccursAt, RightOverlap, LeftOverlap, Inside;
    if p < |a| {
      NoMatchBefore(a, b, f, r, p);
    } else {
      NoMatchWithin(a, b, f, r, p);
    }
  }

  lemma NoMatchBefore<T>(a: seq<T>, b: seq<T>, f: seq<T>, r: seq<T>, p: nat)
    requires FreeLeft(f, r) && IndexOf(a + f + b, f) == |a| && p < |a|
    ensures !OccursAt(a + r + b, f, p)
  {
    hide IndexFrom;
    if OccursAt(a + r + b, f, p) {
      if p + |f| <= |a| {
        NoMatchAhead(a, b, f, r, p);
      } else if p + |f| <= |a| + |r| {
        OverLeftEnd(a, b, f, r, p);
      } else {
        Around(a, b, f, r, p);
      }
    }
  }

  lemma NoMatchAhead<T>(a: seq<T>, b: seq<T>, f: seq<T>, r: seq<T>, p: nat)
    requires IndexOf(a + f + b, f) == |a| && p < |a| && p + |f| <= |a|
    ensures !OccursAt(a + r + b, f, p)
  {
    hide IndexFrom;
    assert [] + a + (r + b) == a + r + b && [] + a + (f + b) == a + f + b;
    InPart([], a, r + b, f, p);
    InPart([], a, f + b, f, p);
  }

  lemma NoMatchWithin<T>(a: seq<T>, b: seq<T>, f: seq<T>, r: seq<T>, p: nat)
    requires f != [] && FreeRight(f, r) && !Includes(r, f) && |a| <= p < |a| + |r|
    ensures !OccursAt(a + r + b, f, p)
  {
    hide IndexFrom;
    if OccursAt(a + r + b, f, p) {
      if p + |f| <= |a| + |r| {
        InPart(a, r, b, f, p - |a|);
      } else {
        OverRightEnd(a, b, f, r, p);
      }
    }
  }

  lemma OverLeftEnd<T>(a: seq<T>, b: seq<T>, f: seq<T>, r: seq<T>, p: nat)
    requires IndexOf(a + f + b, f) == |a|
    requires p < |a| < p + |f| <= |a| + |r| && OccursAt(a + r + b, f, p)
    ensures LeftOverlap(f, r, p + |f| - |a|)
  {
    hide *;
    LeftParts(a, b, f, r, p);
    AroundWindow(a, b, f, p, 0);
    assert a[p..] + f + b[..0] == a[p..] + f;
    WindowFirst(a + f + b, f, p, |a| + |f|, |a| - p);
    LeftOverlapBy(f, r, p + |f| - |a|);
  }

  lemma LeftOverlapBy<T>(f: seq<T>, r: seq<T>, k: nat)
    requires 0 < k < |f| && k <= |r| && r[..k] == f[|f| - k..]
    requires IndexOf(f[..|f| - k] + f, f) == |f| - k
    ensures LeftOverlap(f, r, k)
  {
  }

  /** The two parts of an occurrence over the left end. */
  lemma LeftParts<T>(a: seq<T>, b: seq<T>, f: seq<T>, r: seq<T>, p: nat)
    requires p < |a| < p + |f| <= |a| + |r| && OccursAt(a + r + b, f, p)
    ensures var k := p + |f| - |a|; f[..|f| - k] == a[p..] && r[..k] == f[|f| - k..]
  {
    var t, m, k := a + r + b, |f|, p + |f| - |a|;
    SubSlice(t, p, p + m, m - k, m);
    SubSlice(t, p, p + m, 0, m - k);
    assert r[..k] == t[|a|..p + m];
    assert a[p..] == t[p..|a|];
  }

  lemma OverRightEnd<T>(a: seq<T>, b: seq<T>, f: seq<T>, r: seq<T>, p: nat)
    requires |a| <= p < |a| + |r| < p + |f| <= |a + r + b| && OccursAt(a + r + b, f, p)
    ensures RightOverlap(f, r, |a| + |r| - p)
  {
    var t, n := a + r + b, |a| + |r|;
    SubSlice(t, p, p + |f|, 0, n - p);
    assert r[|r| - (n - p)..] == t[p..n];
  }

  lemma Around<T>(a: seq<T>, b: seq<T>, f: seq<T>, r: seq<T>, p: nat)
    requires IndexOf(a + f + b, f) == |a|
    requires p < |a| && |a| + |r| < p + |f| <= |a + r + b| && OccursAt(a + r + b, f, p)
    ensures Inside(f, r, |a| - p)
  {
    hide *;
    AroundParts(a, b, f, r, p);
    var j, q := |a| - p, p + |f| - |a| - |r|;
    AroundWindow(a, b, f, p, q);
    WindowFirst(a + f + b, f, p, |a| + |f| + q, j);
    InsideBy(f, r, j);
  }

  lemma InsideBy<T>(f: seq<T>, r: seq<T>, j: nat)
    requires 0 < j && j + |r| < |f| && f[j..j + |r|] == r
    requires IndexOf(f[..j] + f + f[j + |r|..], f) == j
    ensures Inside(f, r, j)
  {
  }

  /** The three parts of an occurrence around the replacement. */
  lemma AroundParts<T>(a: seq<T>, b: seq<T>, f: seq<T>, r: seq<T>, p: nat)
    requires p < |a| && |a| + |r| < p + |f| <= |a + r + b| && OccursAt(a + r + b, f, p)
    ensures var j := |a| - p; f[..j] == a[p..] && f[j..j + |r|] == r && f[j + |r|..] == b[..p + |f| - |a| - |r|]
  {
    var t, m, n, j, q := a + r + b, |f|, |a| + |r|, |a| - p, p + |f|;
    SubSlice(t, p, q, 0, j);
    SubSlice(t, p, q, j, j + |r|);
    SubSlice(t, p, q, j + |r|, m);
    assert t[p..|a|] == a[p..] && t[|a|..n] == r && t[n..q] == b[..q - n];
  }

  lemma AroundWindow<T>(a: seq<T>, b: seq<T>, f: seq<T>, p: nat, q: nat)
    requires p <= |a| && q <= |b|
    ensures (a + f + b)[p..|a| + |f| + q] == a[p..] + f + b[..q]
    ensures OccursAt(a + f + b, f, |a|)
  {
  }

  /** The pass and its windows, unfolded at the next match. */
  lemma OneMatch<T>(s: seq<T>, f: seq<T>, r: seq<T>, from: nat)
    requires f != [] && from <= |s| && IndexFrom(s, f, from) != -1
    ensures var i := IndexFrom(s, f, from);
            && from <= i && i + |f| <= |s|
            && OnePassFrom(s, f, r, from) == s[from..i] + r + OnePassFrom(s, f, r, i + |f|)
            && |Starts(s, f, from)| == 1 + |Starts(s, f, i + |f|)|
  {
  }

  lemma NoMatchPass<T>(s: seq<T>, f: seq<T>, r: seq<T>, from: nat)
    requires f != [] && from <= |s| && IndexFrom(s, f, from) == -1
    ensures OnePassFrom(s, f, r, from) == s[from..] && Starts(s, f, from) == []
  {
  }

  lemma NotIncluded<T>(s: seq<T>, f: seq<T>)
    requires IndexOf(s, f) == -1
    ensures !Includes(s, f)
  {
  }

  lemma NoTurn<T>(s: seq<T>, f: seq<T>, r: seq<T>)
    ensures Iterate(s, f, r, 0) == s
  {
  }

  lemma Regroup<T>(a: seq<T>, b: seq<T>, c: seq<T>, d: seq<T>)
    ensures a + b + c + d == a + (b + c + d)
  {
  }

  /** The text in the middle of the loop: a finished part, then what a scan has still to do. */
  lemma {:induction false} Sweep<T>(s: seq<T>, f: seq<T>, r: seq<T>, done: seq<T>, from: nat)
    requires Inert(f, r) && f != [] && from <= |s|
    requires IndexOf(done + s[from..], f) ==
                  if IndexFrom(s, f, from) == -1 then -1 else |done| + IndexFrom(s, f, from) - from
    ensures StopsAfter(done + s[from..], f, r, |Starts(s, f, from)|)
    ensures Iterate(done + s[from..], f, r, |Starts(s, f, from)|) == done + OnePassFrom(s, f, r, from)
    decreases |s| - from
  {
    hide *;
    var t, i := done + s[from..], IndexFrom(s, f, from);
    if i == -1 {
      assert !Includes(t, f) by { NotIncluded(t, f); }
      HaltsWithoutMatch(t, f, r);
      NoMatchPass(s, f, r, from);
      NoTurn(t, f, r);
    } else {
      var j := i + |f|;
      SweepTurn(s, f, r, done, from);
      OneMatch(s, f, r, from);
      Sweep(s, f, r, done + s[from..i] + r, j);
      StopsFront(t, f, r, |Starts(s, f, j)|);
      IterateFront(t, f, r, |Starts(s, f, j)|);
      Regroup(done, s[from..i], r, OnePassFrom(s, f, r, j));
    }
  }

  lemma SweepTurn<T>(s: seq<T>, f: seq<T>, r: seq<T>, done: seq<T>, from: nat)
    requires Inert(f, r) && from <= |s| && IndexFrom(s, f, from) != -1
    requires IndexOf(done + s[from..], f) == |done| + IndexFrom(s, f, from) - from
    ensures var i := IndexFrom(s, f, from);
            var j, done' := i + |f|, done + s[from..i] + r;
            && ReplaceFirst(done + s[from..], f, r) == done' + s[j..]
            && IndexOf(done' + s[j..], f) == if IndexFrom(s, f, j) == -1 then -1 else |done'| + IndexFrom(s, f, j) - j
  {
    hide IndexFrom, Inert, OccursAt;
    var i := IndexFrom(s, f, from);
    var j, a := i + |f|, done + s[from..i];
    SplitMatch(s, f, done, from, i);
    OneReplacement(a, f, s[j..], r);
    forall p: nat | p < |a + r| ensures !OccursAt(a + r + s[j..], f, p) {
      NoNewMatch(a, s[j..], f, r, p);
    }
    FirstAfter(a + r, s[j..], f);
    IndexInSuffix(s, f, j);
  }

  lemma SplitMatch<T>(s: seq<T>, f: seq<T>, done: seq<T>, from: nat, i: nat)
    requires from <= i && OccursAt(s, f, i)
    ensures done + s[from..] == done + s[from..i] + f + s[i + |f|..]
  {
    assert s[from..] == s[from..i] + s[i..i + |f|] + s[i + |f|..];
  }

  lemma OneReplacement<T>(a: seq<T>, f: seq<T>, b: seq<T>, r: seq<T>)
    requires IndexOf(a + f + b, f) == |a|
    ensures ReplaceFirst(a + f + b, f, r) == a + r + b
  {
    assert (a + f + b)[..|a|] == a && (a + f + b)[|a| + |f|..] == b;
  }

  /** If no occurrence starts in `a`, the search in `a + b` is the search in `b`. */
  lemma FirstAfter<T>(a: seq<T>, b: seq<T>, f: seq<T>)
    requires forall p: nat :: p < |a| ==> !OccursAt(a + b, f, p)
    ensures IndexOf(a + b, f) == if IndexOf(b, f) == -1 then -1 else |a| + IndexOf(b, f)
  {
    hide IndexFrom;
    assert (a + b)[|a|..] == b;
    IndexInSuffix(a + b, f, |a|);
    var i := IndexFrom(a + b, f, |a|);
    if i != -1 { IndexFromIs(a + b, f, 0, i); }
  }

  /** The loop ends after as many turns as the pass has matches, with the text of the pass. */
  ghost predicate Agree<T>(s: seq<T>, f: seq<T>, r: seq<T>)
    requires f != []
  {
    StopsAfter(s, f, r, |Starts(s, f, 0)|) && Iterate(s, f, r, |Starts(s, f, 0)|) == OnePass(s, f, r)
  }

  lemma InertAgrees<T>(s: seq<T>, f: seq<T>, r: seq<T>)
    requires Inert(f, r)
    ensures Agree(s, f, r)
  {
    hide IndexFrom, OccursAt, StopsAfter, Iterate;
    assert [] + s[0..] == s;
    Sweep(s, f, r, [], 0);
  }

  /** If the pass leaves a match behind, the loop, which never does, cannot agree with it. */
  lemma LeftoverDisagrees<T>(s: seq<T>, f: seq<T>, r: seq<T>)
    requires f != [] && Includes(OnePass(s, f, r), f)
    ensures !Agree(s, f, r)
  {
  }

  /** The pass over a text with exactly one match. */
  lemma OneMatchPass<T>(a: seq<T>, b: seq<T>, f: seq<T>, r: seq<T>)
    requires f != [] && |b| < |f| && IndexOf(a + f + b, f) == |a|
    ensures OnePass(a + f + b, f, r) == a + r + b
  {
    hide IndexFrom, OccursAt;
    var s, j := a + f + b, |a| + |f|;
    assert IndexFrom(s, f, 0) == |a|;
    assert IndexFrom(s, f, j) == -1;
    assert OnePassFrom(s, f, r, j) == s[j..] == b;
    assert s[0..|a|] == a;
  }

  /** Texts on which loop and pass part, for each way of not being inert. */
  lemma SelfFeedingDisagrees<T>(f: seq<T>, r: seq<T>) returns (s: seq<T>)
    requires f != [] && Includes(r, f)
    ensures !Agree(s, f, r)
  {
    hide IndexFrom;
    assert OccursAt(f, f, 0);
    s := f;
    SelfFeeding(f, f, r, |Starts(f, f, 0)|);
  }

  lemma LeftoverMatch<T>(a: seq<T>, b: seq<T>, f: seq<T>, r: seq<T>, i: nat)
    requires f != [] && |b| < |f| && IndexOf(a + f + b, f) == |a| && OccursAt(a + r + b, f, i)
    ensures !Agree(a + f + b, f, r)
  {
    hide IndexFrom, OccursAt, StopsAfter;
    OneMatchPass(a, b, f, r);
    LeftoverDisagrees(a + f + b, f, r);
  }

  lemma RightOverlapDisagrees<T>(f: seq<T>, r: seq<T>, k: nat) returns (s: seq<T>)
    requires f != [] && RightOverlap(f, r, k)
    ensures !Agree(s, f, r)
  {
    hide IndexFrom;
    var b := f[k..];
    assert ([] + f + b)[0..|f|] == f;
    assert OccursAt([] + f + b, f, 0);
    assert ([] + r + b)[|r| - k..|r| - k + |f|] == f[..k] + b;
    s := [] + f + b;
    LeftoverMatch([], b, f, r, |r| - k);
  }

  lemma LeftOverlapDisagrees<T>(f: seq<T>, r: seq<T>, k: nat) returns (s: seq<T>)
    requires f != [] && LeftOverlap(f, r, k)
    ensures !Agree(s, f, r)
  {
    hide IndexFrom;
    var a := f[..|f| - k];
    assert a + f + [] == a + f;
    assert (a + r + [])[0..|f|] == a + r[..k] == f;
    s := a + f + [];
    LeftoverMatch(a, [], f, r, 0);
  }

  lemma InsideDisagrees<T>(f: seq<T>, r: seq<T>, j: nat) returns (s: seq<T>)
    requires f != [] && Inside(f, r, j)
    ensures !Agree(s, f, r)
  {
    hide IndexFrom;
    var a, b := f[..j], f[j + |r|..];
    assert (a + r + b)[0..|f|] == a + r + b == f;
    s := a + f + b;
    LeftoverMatch(a, b, f, r, 0);
  }

  /** Loop and pass give the same text and count on every input exactly when the replacement is inert. */
  lemma AgreeExactlyWhenInert<T(!new)>(f: seq<T>, r: seq<T>)
    requires f != []
    ensures (forall s: seq<T> :: Agree(s, f, r)) <==> Inert(f, r)
  {
    hide IndexFrom, IndexOf, Agree, RightOverlap, LeftOverlap, Inside, OccursAt;
    if Inert(f, r) {
      forall s: seq<T> ensures Agree(s, f, r) { InertAgrees(s, f, r); }
    } else if Includes(r, f) {
      var s := SelfFeedingDisagrees(f, r);
    } else if k: nat :| RightOverlap(f, r, k) {
      var s := RightOverlapDisagrees(f, r, k);
    } else if k: nat :| LeftOverlap(f, r, k) {
      var s := LeftOverlapDisagrees(f, r, k);
    } else {
      var j: nat :| Inside(f, r, j);
      var s := InsideDisagrees(f, r, j);
    }
  }
}
