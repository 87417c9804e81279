/** Searching and cutting sequences the way JavaScript strings and Node buffers do. */
module Text {

  datatype Option<+T> = None | Some(value: T)

  /** A field JavaScript counts as true: present and not the empty string. */
  predicate Truthy(o: Option<string>) {
    o.Some? && o.value != ""
  }

  ghost predicate Distinct<T>(s: seq<T>) {
    forall i, j :: 0 <= i < j < |s| ==> s[i] != s[j]
  }

  predicate OccursAt<T(==)>(s: seq<T>, f: seq<T>, i: int) {
    0 <= i && i + |f| <= |s| && s[i..i + |f|] == f
  }

  /** `s.indexOf(f, from)`: the first occurrence at or after `from`, or -1. */
  function IndexFrom<T(==)>(s: seq<T>, f: seq<T>, from: nat): (r: int)
    ensures -1 <= r && r + |f| <= Max(|s|, |f| - 1)
    ensures r == -1 ==> forall i :: from <= i ==> !OccursAt(s, f, i)
    ensures r >= 0 ==> from <= r && OccursAt(s, f, r) && forall i :: from <= i < r ==> !OccursAt(s, f, i)
    decreases |s| - from
  {
    if from + |f| > |s| then -1
    else if OccursAt(s, f, from) then from
    else IndexFrom(s, f, from + 1)
  }

  function IndexOf<T(==)>(s: seq<T>, f: seq<T>): (r: int)
    ensures -1 <= r && r + |f| <= Max(|s|, |f| - 1)
    ensures r == -1 ==> forall i :: 0 <= i ==> !OccursAt(s, f, i)
    ensures r >= 0 ==> OccursAt(s, f, r) && forall i :: 0 <= i < r ==> !OccursAt(s, f, i)
  {
    IndexFrom(s, f, 0)
  }

  /** The search text occurs. */
  predicate Includes<T(==)>(s: seq<T>, f: seq<T>) {
    IndexOf(s, f) != -1
  }

  /** An offset forced into the range of `s`, as `substring` does. */
  function Clamp(i: int, n: nat): (c: nat)
    ensures c <= n && (0 <= i <= n ==> c == i) && (i < 0 ==> c == 0) && (i > n ==> c == n)
  {
    if i < 0 then 0 else if i > n then n else i
  }

  /** `s.substring(a, b)`: both ends are clamped, and swapped when out of order. */
  function Substring<T>(s: seq<T>, a: int, b: int): (r: seq<T>)
    ensures r == s[Min(Clamp(a, |s|), Clamp(b, |s|))..Max(Clamp(a, |s|), Clamp(b, |s|))]
  {
    var x, y := Clamp(a, |s|), Clamp(b, |s|);
    if x <= y then s[x..y] else s[y..x]
  }

  function Min(a: int, b: int): int { if a <= b then a else b }

  function Max(a: int, b: int): int { if a <= b then b else a }

  function Repeat<T>(x: T, n: nat): (r: seq<T>)
    ensures |r| == n && forall i :: 0 <= i < n ==> r[i] == x
  {
    seq(n, _ => x)
  }

  /** An occurrence is the same thing seen letter by letter. */
  lemma OccursPointwise<T>(s: seq<T>, f: seq<T>, i: int)
    requires 0 <= i && i + |f| <= |s|
    ensures OccursAt(s, f, i) <==> forall j :: 0 <= j < |f| ==> s[i + j] == f[j]
  {
    if forall j :: 0 <= j < |f| ==> s[i + j] == f[j] {
      assert s[i..i + |f|] == f;
    }
    if OccursAt(s, f, i) {
      forall j | 0 <= j < |f| ensures s[i + j] == f[j] {
        assert s[i..i + |f|][j] == f[j];
      }
    }
  }

  lemma OccursLetter<T>(s: seq<T>, f: seq<T>, i: int, j: nat)
    requires j < |f|
    ensures OccursAt(s, f, i) ==> s[i + j] == f[j]
  {
    if OccursAt(s, f, i) { OccursPointwise(s, f, i); }
  }

  /** `IndexFrom` is determined by the first occurrence. */
  lemma IndexFromIs<T>(s: seq<T>, f: seq<T>, from: nat, i: nat)
    requires from <= i && OccursAt(s, f, i)
    requires forall k :: from <= k < i ==> !OccursAt(s, f, k)
    ensures IndexFrom(s, f, from) == i
  {
  }

  /** Occurrences in a suffix are the occurrences of the whole, shifted. */
  lemma OccursInSuffix<T>(s: seq<T>, f: seq<T>, p: nat, i: nat)
    requires p <= |s|
    ensures OccursAt(s[p..], f, i) <==> OccursAt(s, f, p + i)
  {
    if p + i + |f| <= |s| {
      assert s[p..][i..i + |f|] == s[p + i..p + i + |f|];
    }
  }

  lemma IndexInSuffix<T>(s: seq<T>, f: seq<T>, p: nat)
    requires p <= |s|
    ensures IndexFrom(s, f, p) == (if IndexOf(s[p..], f) == -1 then -1 else p + IndexOf(s[p..], f))
  {
    var r := IndexOf(s[p..], f);
    if r == -1 {
      forall i | p <= i ensures !OccursAt(s, f, i) { OccursInSuffix(s, f, p, i - p); }
    } else {
      OccursInSuffix(s, f, p, r);
      forall k | p <= k < p + r ensures !OccursAt(s, f, k) { OccursInSuffix(s, f, p, k - p); }
      IndexFromIs(s, f, p, p + r);
    }
  }
}
