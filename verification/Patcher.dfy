/** The string patcher, the in-place buffer patcher and the two replace steps built on the same loop. */
module Patcher {
  import opened Text
  import opened Rewrite

  datatype Error =
    | LongerThanOriginal
    | PatternNotFound
    | WrongCount(found: nat)
    | InvalidBoundaries

  datatype Result<+T> = Ok(value: T) | Err(error: Error)

  newtype byte = x: int | 0 <= x < 256

  /** A replacement filled up to the length of the search text. */
  function Pad<T>(find: seq<T>, replace: seq<T>, fill: T): (p: seq<T>)
    requires |replace| <= |find|
    ensures |p| == |find| && p[..|replace|] == replace
    ensures forall i :: |replace| <= i < |find| ==> p[i] == fill
  {
    replace + Repeat(fill, |find| - |replace|)
  }

  /**
   * `applyReplacement`.  The precondition is the exact condition under which its loop ends
   * (`SameLengthHaltsExactly`).
   */
  method ApplyReplacement(content: string, find: string, replace: string) returns (res: Result<(string, nat)>)
    requires |replace| <= |find| && Includes(content, find) ==> Pad(find, replace, ' ') != find
    ensures res.Err? <==> |replace| > |find|
    ensures res.Err? ==> res.error == LongerThanOriginal
    ensures res.Ok? ==>
      var padded := Pad(find, replace, ' ');
      && StopsAfter(content, find, padded, res.value.1)
      && res.value.0 == Iterate(content, find, padded, res.value.1)
      && !Includes(res.value.0, find)
      && |res.value.0| == |content|
  {
    if |replace| > |find| {
      return Err(LongerThanOriginal);
    }
    var padded := Pad(find, replace, ' ');
    SameLengthHaltsExactly(content, find, padded);
    var result, occurrences := ReplaceLoop(content, find, padded);
    IterateLength(content, find, padded, occurrences);
    res := Ok((result, occurrences));
  }

  lemma {:induction false} IterateLength<T>(s: seq<T>, f: seq<T>, r: seq<T>, n: nat)
    requires |f| == |r|
    ensures |Iterate(s, f, r, n)| == |s|
  {
    hide IndexFrom, OccursAt;
    if n > 0 { IterateLength(s, f, r, n - 1); }
  }

  /** `s` with `p` written over the letters from `i` on. */
  ghost function Overwrite<T>(s: seq<T>, i: nat, p: seq<T>): seq<T>
    requires i + |p| <= |s|
  {
    s[..i] + p + s[i + |p|..]
  }

  /** Copies the replacement into the buffer at `idx`. */
  method CopyInto(padded: seq<byte>, buffer: array<byte>, idx: nat)
    requires idx + |padded| <= buffer.Length
    modifies buffer
    ensures buffer[..] == Overwrite(old(buffer[..]), idx, padded)
  {
    forall k | 0 <= k < |padded| {
      buffer[idx + k] := padded[k];
    }
  }

  /** A buffer in the middle of the pass: what is finished, then the old bytes. */
  ghost function Halfway<T>(done: seq<T>, was: seq<T>): seq<T>
    requires |done| <= |was|
  {
    done + was[|done|..]
  }

  /** `applyReplacementBinary`: overwrites the buffer where a left-to-right scan finds a match. */
  method ApplyReplacementBinary(buffer: array<byte>, find: seq<byte>, replace: seq<byte>) returns (res: Result<nat>)
    requires |replace| <= |find| ==> find != []
    modifies buffer
    ensures res.Err? <==> |replace| > |find|
    ensures res.Err? ==> res.error == LongerThanOriginal && buffer[..] == old(buffer[..])
    ensures res.Ok? ==>
      && buffer[..] == OnePass(old(buffer[..]), find, Pad(find, replace, 0x20))
      && res.value == |Starts(old(buffer[..]), find, 0)|
  {
    hide *;
    if |replace| > |find| {
      return Err(LongerThanOriginal);
    }
    var padded := Pad(find, replace, 0x20);
    ghost var was, done := buffer[..], [];
    var occurrences, searchFrom := 0, 0;
    var idx := IndexFrom(buffer[..], find, searchFrom);
    PassBegins(was, find, padded);
    while idx != -1
      invariant searchFrom == |done| <= |was| == buffer.Length
      invariant buffer[..] == Halfway(done, was)
      invariant idx == IndexFrom(was, find, searchFrom)
      invariant done + OnePassFrom(was, find, padded, searchFrom) == OnePass(was, find, padded)
      invariant occurrences + |Starts(was, find, searchFrom)| == |Starts(was, find, 0)|
      decreases |was| - searchFrom
    {
      done := PassTurn(was, find, padded, done);
      CopyInto(padded, buffer, idx);
      occurrences := occurrences + 1;
      searchFrom := idx + |find|;
      idx := IndexFrom(buffer[..], find, searchFrom);
      SameTailSearch(done, was, find);
    }
    PassEnds(was, find, padded, done);
    res := Ok(occurrences);
  }

  lemma PassBegins<T>(was: seq<T>, f: seq<T>, r: seq<T>)
    requires f != []
    ensures [] + OnePassFrom(was, f, r, 0) == OnePass(was, f, r)
    ensures Halfway([], was) == was
  {
  }

  lemma PassEnds<T>(was: seq<T>, f: seq<T>, r: seq<T>, done: seq<T>)
    requires f != [] && |done| <= |was| && IndexFrom(was, f, |done|) == -1
    ensures done + OnePassFrom(was, f, r, |done|) == Halfway(done, was) && Starts(was, f, |done|) == []
  {
  }

  /** One turn of the pass: what is finished grows by the text up to the match and the replacement. */
  lemma PassTurn<T>(was: seq<T>, f: seq<T>, r: seq<T>, done: seq<T>) returns (done': seq<T>)
    requires f != [] && |r| == |f| && |done| <= |was| && IndexFrom(was, f, |done|) != -1
    ensures |done'| == IndexFrom(was, f, |done|) + |f| <= |was| && |done| < |done'|
    ensures Overwrite(Halfway(done, was), IndexFrom(was, f, |done|), r) == Halfway(done', was)
    ensures done' + OnePassFrom(was, f, r, |done'|) == done + OnePassFrom(was, f, r, |done|)
    ensures |Starts(was, f, |done|)| == 1 + |Starts(was, f, |done'|)|
  {
    hide *;
    OneMatch(was, f, r, |done|);
    done' := Lengthened(was, done, r, IndexFrom(was, f, |done|),
                              OnePassFrom(was, f, r, IndexFrom(was, f, |done|) + |f|));
  }

  lemma Lengthened<T>(was: seq<T>, done: seq<T>, r: seq<T>, i: nat, rest: seq<T>) returns (done': seq<T>)
    requires |done| <= i && i + |r| <= |was|
    ensures |done'| == i + |r| && Overwrite(Halfway(done, was), i, r) == Halfway(done', was)
    ensures done' + rest == done + (was[|done|..i] + r + rest)
  {
    done' := done + was[|done|..i] + r;
    var h := Halfway(done, was);
    assert h[..i] == done + was[|done|..i];
    assert h[i + |r|..] == was[i + |r|..];
  }

  /** Overwriting the part before `|done|` does not change what is found from there on. */
  lemma SameTailSearch<T>(done: seq<T>, was: seq<T>, f: seq<T>)
    requires |done| <= |was|
    ensures IndexFrom(Halfway(done, was), f, |done|) == IndexFrom(was, f, |done|)
  {
    hide IndexFrom, OccursAt;
    assert Halfway(done, was)[|done|..] == was[|done|..];
    IndexInSuffix(Halfway(done, was), f, |done|);
    IndexInSuffix(was, f, |done|);
  }

  /**
   * What the buffer patcher leaves behind: the same length, the padded replacement over every
   * window, windows that are disjoint matches of the old buffer, and the old byte elsewhere.
   */
  lemma BufferPatchEffect<T>(s: seq<T>, find: seq<T>, padded: seq<T>)
    requires find != [] && |padded| == |find|
    ensures |OnePass(s, find, padded)| == |s|
    ensures Disjoint(Starts(s, find, 0), |find|)
    ensures forall k :: 0 <= k < |Starts(s, find, 0)| ==> OccursAt(s, find, Starts(s, find, 0)[k])
    ensures forall k :: 0 <= k < |Starts(s, find, 0)| ==>
                  OccursAt(OnePass(s, find, padded), padded, Starts(s, find, 0)[k])
    ensures forall p :: 0 <= p < |s| && !Covered(Starts(s, find, 0), |find|, p) ==> OnePass(s, find, padded)[p] == s[p]
    ensures forall p :: 0 <= p < |s| && OccursAt(s, find, p) ==> Covered(Starts(s, find, 0), |find|, p)
  {
    hide IndexFrom, OccursAt, Starts, OnePassFrom, Covered;
    OnePassLength(s, find, padded, 0);
    StartsDisjoint(s, find, 0);
    forall k | 0 <= k < |Starts(s, find, 0)|
      ensures OccursAt(OnePass(s, find, padded), padded, Starts(s, find, 0)[k])
    {
      OnePassInside(s, find, padded, 0, k, 0);
      OccursPointwise(OnePass(s, find, padded), padded, Starts(s, find, 0)[k]);
      forall q | 0 <= q < |find| ensures OnePass(s, find, padded)[Starts(s, find, 0)[k] + q] == padded[q] {
        OnePassInside(s, find, padded, 0, k, q);
      }
    }
    forall p | 0 <= p < |s| && !Covered(Starts(s, find, 0), |find|, p) ensures OnePass(s, find, padded)[p] == s[p] {
      OnePassOutside(s, find, padded, 0, p);
    }
    forall p | 0 <= p < |s| && OccursAt(s, find, p) ensures Covered(Starts(s, find, 0), |find|, p) {
      StartsComplete(s, find, 0, p);
    }
  }

  /** For a padded replacement, which is as long as the search text, being inert is having no overlap at either end. */
  lemma PaddedInert<T>(f: seq<T>, r: seq<T>)
    requires f != [] && |r| == |f|
    ensures Inert(f, r) <==> r != f && forall k: nat :: !RightOverlap(f, r, k) && !LeftOverlap(f, r, k)
  {
    hide IndexFrom;
    if Includes(r, f) {
      var i := IndexOf(r, f);
      assert i == 0 && r[0..|f|] == r;
    } else {
      assert !OccursAt(r, f, 0);
      assert r[0..|f|] == r;
    }
  }

  /**
   * Text of one length with the search text, patched as a string and as a buffer:
   * the results are the same for every content exactly when no overlap exists.
   */
  lemma PatchersAgreeExactly<T(!new)>(f: seq<T>, r: seq<T>)
    requires f != [] && |r| == |f|
    ensures (forall s: seq<T> :: Agree(s, f, r)) <==>
                r != f && forall k: nat :: !RightOverlap(f, r, k) && !LeftOverlap(f, r, k)
  {
    hide IndexFrom, Agree, RightOverlap, LeftOverlap, Inert;
    AgreeExactlyWhenInert(f, r);
    PaddedInert(f, r);
  }

  /** An inert replacement of any length, also a longer one, lets the loop end with the text of one pass. */
  lemma InertHalts<T>(s: seq<T>, f: seq<T>, r: seq<T>)
    requires Inert(f, r)
    ensures Halts(s, f, r)
  {
    hide IndexFrom, Inert, StopsAfter;
    InertAgrees(s, f, r);
  }

  /** Equal counts of one loop are equal results. */
  lemma StopsOnce<T>(s: seq<T>, f: seq<T>, r: seq<T>, m: nat, n: nat)
    requires StopsAfter(s, f, r, m) && StopsAfter(s, f, r, n)
    ensures m == n
  {
    hide IndexFrom, Iterate;
  }

  /** What a replace step answers when it replaces matches of `find` by `r` until none is left. */
  ghost predicate Answers(text: string, find: string, r: string, expected: Option<nat>, res: Result<string>) {
    && (res == Err(PatternNotFound) <==> !Includes(text, find))
    && (res.Ok? ==> exists count: nat ::
          && count > 0 && (expected.Some? ==> expected.value == count)
          && StopsAfter(text, find, r, count) && res.value == Iterate(text, find, r, count))
    && (res.Err? && res.error != PatternNotFound ==>
          && res.error.WrongCount? && expected.Some? && expected.value != res.error.found
          && StopsAfter(text, find, r, res.error.found))
    && (res.Ok? ==> !Includes(res.value, find))
  }

  /** A replacement of the length of the search text keeps the length of the text. */
  lemma SameLengthAnswer(text: string, find: string, r: string, expected: Option<nat>, res: Result<string>)
    requires |find| == |r| && Answers(text, find, r, expected, res) && res.Ok?
    ensures |res.value| == |text|
  {
    hide StopsAfter, IndexFrom, Iterate;
    var count: nat :| StopsAfter(text, find, r, count) && res.value == Iterate(text, find, r, count);
    IterateLength(text, find, r, count);
  }

  /** `executeFindReplace` in literal mode.  Where the preconditions fail, the source loops for ever. */
  method ExecuteFindReplace(js: string, find: string, replace: string, padToLength: bool, expected: Option<nat>)
    returns (res: Result<string>)
    requires padToLength && |replace| <= |find| ==> Halts(js, find, Pad(find, replace, ' '))
    requires !padToLength || |replace| > |find| ==> Halts(js, find, replace)
    ensures padToLength && |replace| <= |find| ==>
      Answers(js, find, Pad(find, replace, ' '), expected, res) && (res.Ok? ==> |res.value| == |js|)
    ensures !padToLength || |replace| > |find| ==> Answers(js, find, replace, expected, res)
  {
    hide IndexFrom;
    assert |replace| == |find| ==> Pad(find, replace, ' ') == replace;
    var r := if padToLength && |replace| < |find| then Pad(find, replace, ' ') else replace;
    var result, count := ReplaceLoop(js, find, r);
    assert Includes(Iterate(js, find, r, 0), find) == Includes(js, find);
    if count == 0 {
      res := Err(PatternNotFound);
    } else if expected.Some? && expected.value != count {
      res := Err(WrongCount(count));
    } else {
      res := Ok(result);
      if |r| == |find| { SameLengthAnswer(js, find, r, expected, res); }
    }
  }

  /** `find_replace` succeeds on an inert replacement exactly when the pass meets the expected number of matches. */
  lemma InertFindReplace(js: string, find: string, r: string, count: nat)
    requires find != [] && Inert(find, r) && StopsAfter(js, find, r, count)
    ensures count == |Starts(js, find, 0)| && Iterate(js, find, r, count) == OnePass(js, find, r)
  {
    hide IndexFrom, Inert, Iterate, StopsAfter;
    InertAgrees(js, find, r);
    StopsOnce(js, find, r, count, |Starts(js, find, 0)|);
  }

  /** `executeReplaceInFunction` in literal mode: the same loop on a window of the text. */
  method ExecuteReplaceInFunction(js: string, fnStart: Option<int>, fnEnd: Option<int>, find: string, replace: string,
                                  expected: Option<nat>)
    returns (res: Result<string>)
    requires fnStart.Some? && fnEnd.Some? ==> Halts(Substring(js, fnStart.value, fnEnd.value), find, replace)
    ensures res == Err(InvalidBoundaries) <==> fnStart.None? || fnEnd.None?
    ensures fnStart.Some? && fnEnd.Some? ==>
      var body := Substring(js, fnStart.value, fnEnd.value);
      && (res == Err(PatternNotFound) <==> !Includes(body, find))
      && (res.Ok? ==> exists count: nat ::
            && count > 0 && (expected.Some? ==> expected.value == count)
            && StopsAfter(body, find, replace, count)
            && res.value == js[..Clamp(fnStart.value, |js|)] + Iterate(body, find, replace, count)
                            + js[Clamp(fnEnd.value, |js|)..])
      && (res.Err? && res.error != PatternNotFound ==>
            && res.error.WrongCount? && expected.Some? && expected.value != res.error.found
            && StopsAfter(body, find, replace, res.error.found))
  {
    hide IndexFrom;
    if fnStart.None? || fnEnd.None? {
      return Err(InvalidBoundaries);
    }
    var body := Substring(js, fnStart.value, fnEnd.value);
    var newBody, count := ReplaceLoop(body, find, replace);
    if count == 0 {
      return Err(PatternNotFound);
    }
    assert Includes(Iterate(body, find, replace, 0), find);
    if expected.Some? && expected.value != count {
      return Err(WrongCount(count));
    }
    res := Ok(Substring(js, 0, fnStart.value) + newBody + Substring(js, fnEnd.value, |js|));
  }
}
