/**
 * When the replace loop ends, for replacements of any length.  A longer replacement can keep it going
 * without containing the search text; it ends when one end of the replacement is free of overlaps, and
 * when some letter gets rarer.
 */
module Halting {
  import opened Text
  import opened Rewrite

  /** A text around its first match, and the text of the next turn. */
  lemma Turn<T>(t: seq<T>, f: seq<T>, r: seq<T>) returns (a: seq<T>, b: seq<T>)
    requires Includes(t, f)
    ensures t == a + f + b && IndexOf(t, f) == |a| && ReplaceFirst(t, f, r) == a + r + b
  {
    hide IndexFrom;
    var p := IndexOf(t, f);
    a, b := t[..p], t[p + |f|..];
    assert t == a + t[p..p + |f|] + b;
  }

  /** Behind the replaced match the matches stand as before, moved by the change of length. */
  lemma MatchBehind<T>(a: seq<T>, b: seq<T>, f: seq<T>, r: seq<T>, i: nat)
    ensures OccursAt(a + r + b, f, |a| + |r| + i) <==> OccursAt(a + f + b, f, |a| + |f| + i)
  {
    hide OccursAt;
    assert (a + r + b)[|a| + |r|..] == b && (a + f + b)[|a| + |f|..] == b;
    OccursInSuffix(a + r + b, f, |a| + |r|, i);
    OccursInSuffix(a + f + b, f, |a| + |f|, i);
  }

  // ----- One free end is enough -----

  /** No match lies within the first `x` letters, and none begins between there and `y`. */
  ghost predicate Cleared<T>(t: seq<T>, f: seq<T>, x: nat, y: nat) {
    && x <= y <= |t|
    && (forall p: nat :: p + |f| <= x ==> !OccursAt(t, f, p))
    && (forall p: nat :: x <= p < y ==> !OccursAt(t, f, p))
  }

  /** How far a text is cleared after a turn. */
  function NextClear(p: nat, m: nat, n: nat, y: nat): nat {
    p + n + (if y > p + m then y - (p + m) else 0)
  }

  lemma ClearedTurn<T>(a: seq<T>, b: seq<T>, f: seq<T>, r: seq<T>, x: nat, y: nat)
    requires f != [] && !Includes(r, f) && FreeRight(f, r)
    requires IndexOf(a + f + b, f) == |a| && Cleared(a + f + b, f, x, y)
    ensures Cleared(a + r + b, f, |a|, NextClear(|a|, |f|, |r|, y))
    ensures OccursAt(a + f + b, f, |a|)
  {
    hide IndexFrom, OccursAt, FreeRight, Includes;
    var z := NextClear(|a|, |f|, |r|, y);
    assert OccursAt(a + f + b, f, |a|);
    forall p: nat | p + |f| <= |a| ensures !OccursAt(a + r + b, f, p) {
      NoMatchAhead(a, b, f, r, p);
    }
    forall p: nat | |a| <= p < z ensures !OccursAt(a + r + b, f, p) {
      if p < |a| + |r| {
        NoMatchWithin(a, b, f, r, p);
      } else {
        MatchBehind(a, b, f, r, p - |a| - |r|);
      }
    }
  }

  lemma {:induction false} ClearedHalts<T>(t: seq<T>, f: seq<T>, r: seq<T>, x: nat, y: nat)
    requires f != [] && !Includes(r, f) && FreeRight(f, r) && Cleared(t, f, x, y)
    ensures Halts(t, f, r)
    decreases |t| - y, x
  {
    if Includes(t, f) {
      var a, b := Turn(t, f, r);
      ClearedTurn(a, b, f, r, x, y);
      hide IndexFrom, FreeRight, Includes, Halts, ReplaceFirst;
      ClearedHalts(a + r + b, f, r, |a|, NextClear(|a|, |f|, |r|, y));
      HaltsFront(t, f, r);
    } else {
      HaltsWithoutMatch(t, f, r);
    }
  }

  /** A replacement whose right end can begin no match lets the loop end on every text. */
  lemma RightFreeHalts<T>(s: seq<T>, f: seq<T>, r: seq<T>)
    requires f != [] && !Includes(r, f) && FreeRight(f, r)
    ensures Halts(s, f, r)
  {
    hide IndexFrom, FreeRight, Includes, Halts;
    ClearedHalts(s, f, r, 0, 0);
  }

  /** The text behind the first match gets shorter with every turn. */
  lemma LeftFreeTurn<T>(a: seq<T>, b: seq<T>, f: seq<T>, r: seq<T>)
    requires f != [] && !Includes(r, f) && FreeLeft(f, r)
    requires IndexOf(a + f + b, f) == |a| && Includes(a + r + b, f)
    ensures |a + r + b| - IndexOf(a + r + b, f) < |a + f + b| - |a|
  {
    hide IndexFrom, FreeLeft;
    var t := a + r + b;
    var q := IndexOf(t, f);
    if q < |a| {
      NoMatchBefore(a, b, f, r, q);
    } else if q + |f| <= |a| + |r| {
      InPart(a, r, b, f, q - |a|);
    }
  }

  /** A replacement whose left end can end no match lets the loop end on every text. */
  lemma {:induction false} LeftFreeHalts<T>(s: seq<T>, f: seq<T>, r: seq<T>)
    requires f != [] && !Includes(r, f) && FreeLeft(f, r)
    ensures Halts(s, f, r)
    decreases if Includes(s, f) then 1 + |s| - IndexOf(s, f) else 0
  {
    if Includes(s, f) {
      var a, b := Turn(s, f, r);
      if Includes(a + r + b, f) { LeftFreeTurn(a, b, f, r); }
      hide IndexFrom, FreeLeft, Halts, ReplaceFirst;
      LeftFreeHalts(a + r + b, f, r);
      HaltsFront(s, f, r);
    } else {
      HaltsWithoutMatch(s, f, r);
    }
  }

  // ----- A letter that gets rarer -----

  /** A replacement in which some letter stands less often than in the search text lets the loop end. */
  lemma {:induction false} RarerHalts<T>(s: seq<T>, f: seq<T>, r: seq<T>, c: T)
    requires multiset(r)[c] < multiset(f)[c]
    ensures Halts(s, f, r)
    decreases multiset(s)[c]
  {
    if Includes(s, f) {
      var a, b := Turn(s, f, r);
      hide IndexFrom, Halts, ReplaceFirst;
      assert multiset(a + f + b) == multiset(a) + multiset(f) + multiset(b);
      assert multiset(a + r + b) == multiset(a) + multiset(r) + multiset(b);
      RarerHalts(a + r + b, f, r, c);
      HaltsFront(s, f, r);
    } else {
      HaltsWithoutMatch(s, f, r);
    }
  }

  // ----- Without a free end the loop may run for ever -----

  /** The texts of the endless run, at an even and at an odd turn. */
  function Even<T>(a: T, b: T, n: nat): seq<T> {
    Repeat(b, n) + [a, a, b] + Repeat(a, n)
  }

  function Odd<T>(a: T, b: T, n: nat): seq<T> {
    Repeat(b, n) + [a, b, b, a, a] + Repeat(a, n)
  }

  lemma TwoLetters<T>(t: seq<T>, a: T, b: T, i: nat)
    requires a != b && i + 2 <= |t| && t[i] == a && t[i + 1] == b
    requires forall k :: 0 <= k < i ==> t[k] == b || t[k + 1] == a
    ensures IndexOf(t, [a, b]) == i
  {
    hide IndexFrom;
    assert t[i..i + 2] == [a, b];
    forall k | 0 <= k < i ensures !OccursAt(t, [a, b], k) {
      OccursPointwise(t, [a, b], k);
      assert [a, b][0] == a && [a, b][1] == b;
    }
    IndexFromIs(t, [a, b], 0, i);
  }

  lemma EvenTurn<T>(a: T, b: T, n: nat)
    requires a != b
    ensures Includes(Even(a, b, n), [a, b]) && ReplaceFirst(Even(a, b, n), [a, b], [b, b, a, a]) == Odd(a, b, n)
  {
    hide IndexFrom, OccursAt;
    var t := Even(a, b, n);
    TwoLetters(t, a, b, n + 1);
    assert t[..n + 1] == Repeat(b, n) + [a] && t[n + 3..] == Repeat(a, n);
    assert Repeat(b, n) + [a] + [b, b, a, a] + Repeat(a, n) == Odd(a, b, n);
  }

  lemma OddTurn<T>(a: T, b: T, n: nat)
    requires a != b
    ensures Includes(Odd(a, b, n), [a, b]) && ReplaceFirst(Odd(a, b, n), [a, b], [b, b, a, a]) == Even(a, b, n + 2)
  {
    hide IndexFrom, OccursAt;
    var t := Odd(a, b, n);
    TwoLetters(t, a, b, n);
    assert t[..n] == Repeat(b, n) && t[n + 2..] == [b, a, a] + Repeat(a, n);
    assert Repeat(b, n) + [b, b, a, a] + ([b, a, a] + Repeat(a, n)) == Even(a, b, n + 2);
  }

  lemma OneMoreTurn<T>(s: seq<T>, f: seq<T>, r: seq<T>, n: nat)
    ensures Iterate(s, f, r, n + 1) == ReplaceFirst(Iterate(s, f, r, n), f, r)
  {
    hide ReplaceFirst;
  }

  lemma {:induction false} EndlessTurns<T>(a: T, b: T, s: seq<T>, f: seq<T>, r: seq<T>, m: nat)
    requires a != b && s == [a, a, b] && f == [a, b] && r == [b, b, a, a]
    ensures Iterate(s, f, r, 2 * m) == Even(a, b, 2 * m) && Iterate(s, f, r, 2 * m + 1) == Odd(a, b, 2 * m)
    ensures Includes(Iterate(s, f, r, 2 * m), f) && Includes(Iterate(s, f, r, 2 * m + 1), f)
  {
    if m == 0 {
      assert Even(a, b, 0) == s;
      NoTurn(s, f, r);
    }
    hide *;
    if m > 0 {
      EndlessTurns(a, b, s, f, r, m - 1);
      OddTurn(a, b, 2 * m - 2);
      OneMoreTurn(s, f, r, 2 * m - 1);
    }
    EvenTurn(a, b, 2 * m);
    OneMoreTurn(s, f, r, 2 * m);
    OddTurn(a, b, 2 * m);
  }

  /**
   * A longer replacement that does not contain the search text, overlaps it at both ends, and keeps the
   * loop going for ever.
   */
  lemma EndlessWithBothEnds<T>(a: T, b: T)
    requires a != b
    ensures var f, r := [a, b], [b, b, a, a];
            !Includes(r, f) && RightOverlap(f, r, 1) && LeftOverlap(f, r, 1) && !Halts([a, a, b], f, r)
  {
    hide IndexFrom;
    var s, f, r := [a, a, b], [a, b], [b, b, a, a];
    forall k ensures !OccursAt(r, f, k) {
      if 0 <= k <= 2 {
        OccursPointwise(r, f, k);
        assert f[0] == a && f[1] == b;
      }
    }
    assert f[..1] + f == s;
    TwoLetters(s, a, b, 1);
    hide Iterate, Includes;
    forall n: nat ensures Includes(Iterate(s, f, r, n), f) {
      EndlessTurns(a, b, s, f, r, n / 2);
      assert n == 2 * (n / 2) || n == 2 * (n / 2) + 1;
    }
  }
}
