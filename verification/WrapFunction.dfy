/** The `wrap_function` step: two insertions by offset, and what they do to brace matching. */
module WrapFunction {
  import opened Text
  import opened JsLexer

  datatype Outcome = Wrapped(text: string) | InvalidBoundaries | NothingToWrap

  function Insert(s: string, at: int, w: string): string {
    s[..Clamp(at, |s|)] + w + s[Clamp(at, |s|)..]
  }

  /** `s` with `before` after its first `a` characters and `after` after its first `b`. */
  function WrapAt(s: string, a: nat, b: nat, before: string, after: string): (t: string)
    requires a <= b <= |s|
    ensures |t| == |s| + |before| + |after|
  {
    s[..a] + before + s[a..b] + after + s[b..]
  }

  /** `executeWrapFunction`, on offsets that did (`Some`) or did not (`None`) parse. */
  method ExecuteWrapFunction(js: string, fnStart: Option<int>, fnEnd: Option<int>, before: string, after: string)
    returns (res: Outcome)
    ensures res.InvalidBoundaries? <==> fnStart.None? || fnEnd.None?
    ensures res.NothingToWrap? <==> fnStart.Some? && fnEnd.Some? && before == "" && after == ""
    ensures res.Wrapped? && 0 <= fnStart.value <= fnEnd.value <= |js| ==>
      res.text == WrapAt(js, fnStart.value, fnEnd.value, before, after)
    ensures res.Wrapped? ==> res.text == Insert(Insert(js, fnEnd.value, after), fnStart.value, before)
  {
    hide *;
    if fnStart.None? || fnEnd.None? {
      return InvalidBoundaries;
    }
    if before == "" && after == "" {
      return NothingToWrap;
    }
    var result := js;
    CutAndPaste(js, fnEnd.value, after);
    if after != "" {
      result := Substring(result, 0, fnEnd.value) + after + Substring(result, fnEnd.value, |result|);
    }
    CutAndPaste(result, fnStart.value, before);
    if before != "" {
      result := Substring(result, 0, fnStart.value) + before + Substring(result, fnStart.value, |result|);
    }
    InsertTwice(js, fnStart.value, fnEnd.value, before, after);
    res := Wrapped(result);
  }

  lemma CutAndPaste(s: string, at: int, w: string)
    ensures Insert(s, at, w) == if w == "" then s else Substring(s, 0, at) + w + Substring(s, at, |s|)
  {
  }

  /** Inserting at the higher offset first leaves the lower offset where it was. */
  lemma InsertTwice(s: string, a: int, b: int, before: string, after: string)
    ensures 0 <= a <= b <= |s| ==> Insert(Insert(s, b, after), a, before) == WrapAt(s, a, b, before, after)
  {
    if 0 <= a <= b <= |s| {
      var t := Insert(s, b, after);
      assert t[..a] == s[..a];
      assert t[a..] == s[a..b] + after + s[b..];
    }
  }

  // ----- Matching after wrapping -----

  /** Plain code at depth `d` with nothing pending. */
  function Code(d: int): Lexer { Lexer(d, Plain, Base) }

  /** A pending slash does not become a comment on reading character `i` of `t`. */
  predicate NoSeam(l: Lexer, t: string, i: nat) {
    l.trivia.Plain? || (l.trivia.Slash? && (i < |t| ==> t[i] !in {'/', '*'}))
  }

  /**
   * Read from plain code at depth `from`, `w` ends in plain code at depth `to` and never closes
   * the surrounding block on the way.
   */
  ghost predicate Carries(w: string, from: int, to: int) {
    && StaysOpen(w, 0, |w|, Code(from))
    && var l := Run(w, 0, |w|, Code(from)); l.stack.Base? && l.depth == to && l.trivia in {Plain, Slash}
  }

  /** How a text behaves when the lexer arrives at it with a harmless slash still pending. */
  lemma {:induction false} SlashForgotten(t: string, i: nat, j: nat, m: Lexer)
    requires i < j <= |t| && m.stack.Base? && m.trivia.Slash? && t[i] !in {'/', '*'}
    ensures Run(t, i, j, m) == Run(t, i, j, m.(trivia := Plain))
    decreases j
  {
    if j > i + 1 {
      SlashForgotten(t, i, j - 1, m);
    } else {
      assert Run(t, i, i, m) == m;
    }
  }

  lemma StaysOpenJoins(s: string, i: nat, k: nat, j: nat, l: Lexer)
    requires i <= k <= j <= |s| && StaysOpen(s, i, k, l) && StaysOpen(s, k, j, Run(s, i, k, l))
    ensures StaysOpen(s, i, j, l)
  {
    hide Run;
    forall n | i < n <= j ensures Run(s, i, n, l).depth >= 1 {
      if n > k { RunSplit(s, i, k, n, l); }
    }
  }

  lemma SegmentRun(t: string, p: nat, w: string, m: Lexer)
    requires p + |w| <= |t| && t[p..p + |w|] == w && m.stack.Base? && NoSeam(m, t, p)
    ensures forall k :: 0 < k <= |w| ==> Run(t, p, p + k, m) == Run(w, 0, k, m.(trivia := Plain))
  {
    hide Run;
    var c := m.(trivia := Plain);
    forall k | 0 < k <= |w| ensures Run(t, p, p + k, m) == Run(w, 0, k, c) {
      if m.trivia.Slash? { SlashForgotten(t, p, p + k, m); }
      assert t[p..p + k] == t[p..p + |w|][..k] == w[0..k];
      RunShift(t, p, p + k, w, 0, k, c);
    }
  }

  /** A text standing at `p` in `t` carries the depth in `t` as it does alone. */
  lemma Segment(t: string, p: nat, w: string, from: int, to: int, m: Lexer)
    requires p + |w| <= |t| && t[p..p + |w|] == w && Carries(w, from, to)
    requires m.stack.Base? && m.depth == from && NoSeam(m, t, p)
    requires NoSeam(Run(w, 0, |w|, Code(from)), t, p + |w|)
    ensures StaysOpen(t, p, p + |w|, m)
    ensures var l := Run(t, p, p + |w|, m); l.stack.Base? && l.depth == to && NoSeam(l, t, p + |w|)
  {
    hide Run;
    SegmentRun(t, p, w, m);
    assert m.(trivia := Plain) == Code(from);
    forall k | p < k <= p + |w| ensures Run(t, p, k, m).depth >= 1 {
      assert Run(t, p, p + (k - p), m) == Run(w, 0, k - p, Code(from));
    }
    if w == "" {
      RunEmpty(t, p, m);
      RunEmpty(w, 0, Code(from));
    }
  }

  lemma RunEmpty(s: string, i: nat, l: Lexer)
    requires i <= |s|
    ensures Run(s, i, i, l) == l
  {
  }

  /** The body between a matched pair of braces carries any depth unchanged. */
  lemma BodyCarries(s: string, open: nat, r: nat, d: nat)
    requires Closes(s, open, r)
    ensures Carries(s[open + 1..r], 1 + d, 1 + d)
    ensures Run(s[open + 1..r], 0, r - open - 1, Code(1 + d)).trivia == Run(s, open, r, START).trivia
  {
    hide Run;
    var w := s[open + 1..r];
    AtClose(s, open, r);
    OpensBlock(s, open);
    var c := Code(1 + d);
    forall k | 0 <= k <= |w|
      ensures Run(w, 0, k, c) ==
                Run(s, open, open + 1 + k, START).(depth := Run(s, open, open + 1 + k, START).depth + d)
    {
      RunDeeper(w, 0, k, Code(1), d);
      assert Code(1).(depth := 1 + d) == c;
      assert w[0..k] == s[open + 1..open + 1 + k];
      RunShift(w, 0, k, s, open + 1, open + 1 + k, Code(1));
      RunSplit(s, open, open + 1, open + 1 + k, START);
    }
    forall k | 0 < k <= |w| ensures Run(w, 0, k, c).depth >= 1 {
      assert Run(s, open, open + 1 + k, START).depth >= 1;
    }
  }

  lemma OpensBlock(s: string, open: nat)
    requires open < |s| && s[open] == '{'
    ensures Run(s, open, open + 1, START) == Code(1)
  {
    assert Run(s, open, open, START) == START;
  }

  lemma WrapPieces(s: string, open: nat, r: nat, before: string, after: string)
    requires open < r < |s|
    ensures var t := WrapAt(s, open + 1, r, before, after);
            var p := open + 1 + |before|;
            var q := p + |s[open + 1..r]|;
            && t[open] == s[open] && t[q + |after|] == s[r] && t[..open + 1] == s[..open + 1]
            && t[open + 1..p] == before && t[p..q] == s[open + 1..r] && t[q..q + |after|] == after
  {
  }

  /**
   * Wrapping keeps the match.  The text put in front may open `d` blocks of its own; if no seam
   * spells a comment, the old brace is matched, shifted by both wrappers, exactly when the text
   * put at the end closes those blocks and does not close the function's own.
   */
  lemma WrapKeepsMatchExactly(s: string, open: nat, r: nat, before: string, after: string, d: nat)
    requires Closes(s, open, r) && Carries(before, 1, 1 + d)
    requires NoSeam(Run(before, 0, |before|, Code(1)), WrapAt(s, open + 1, r, before, after), open + 1 + |before|)
    requires NoSeam(Run(s, open, r, START), WrapAt(s, open + 1, r, before, after), r + |before|)
    ensures Closes(WrapAt(s, open + 1, r, before, after), open, r + |before| + |after|) <==> Carries(after, 1 + d, 1)
  {
    hide Run;
    var t, body := WrapAt(s, open + 1, r, before, after), s[open + 1..r];
    var a := open + 1;
    var p := a + |before|;
    var q := p + |body|;
    var e := q + |after|;
    AtClose(s, open, r);
    WrapPieces(s, open, r, before, after);
    OpensBlock(t, open);
    assert StaysOpen(t, open, a, START);
    Segment(t, a, before, 1, 1 + d, Code(1));
    Append(t, open, a, p);
    BodyCarries(s, open, r, d);
    Segment(t, p, body, 1 + d, 1 + d, Run(t, open, p, START));
    Append(t, open, p, q);
    if Carries(after, 1 + d, 1) {
      Segment(t, q, after, 1 + d, 1, Run(t, open, q, START));
      Append(t, open, q, e);
      OneMore(t, open, e, START);
    }
    if Closes(t, open, e) {
      AtClose(t, open, e);
      RunSplit(t, open, q, e, START);
      forall k | q < k <= e ensures Run(t, q, k, Run(t, open, q, START)).depth >= 1 {
        RunSplit(t, open, q, k, START);
        assert Run(t, open, k, START).depth >= 1;
      }
      SegmentBack(t, q, after, 1 + d, Run(t, open, q, START));
    }
  }

  /** The converse of `Segment`. */
  lemma SegmentBack(t: string, p: nat, w: string, from: int, m: Lexer)
    requires p + |w| <= |t| && t[p..p + |w|] == w && m.stack.Base? && m.depth == from && NoSeam(m, t, p)
    requires StaysOpen(t, p, p + |w|, m)
    requires var l := Run(t, p, p + |w|, m); l.stack.Base? && l.trivia in {Plain, Slash}
    ensures Carries(w, from, Run(t, p, p + |w|, m).depth)
  {
    hide Run;
    SegmentRun(t, p, w, m);
    var c := m.(trivia := Plain);
    assert c == Code(from);
    forall k | 0 < k <= |w| ensures Run(w, 0, k, c).depth >= 1 { assert Run(t, p, p + k, m).depth >= 1; }
    RunEmpty(t, p, m);
    RunEmpty(w, 0, c);
  }

  lemma Append(t: string, open: nat, k: nat, j: nat)
    requires open <= k <= j <= |t| && StaysOpen(t, open, k, START) && StaysOpen(t, k, j, Run(t, open, k, START))
    ensures StaysOpen(t, open, j, START) && Run(t, open, j, START) == Run(t, k, j, Run(t, open, k, START))
  {
    hide Run;
    StaysOpenJoins(t, open, k, j, START);
    RunSplit(t, open, k, j, START);
  }
}
