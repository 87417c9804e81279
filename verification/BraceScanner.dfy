/**
 * The hand-written scanner that finds a function's closing brace by jumping over strings,
 * templates and comments, proved to agree with the one-character lexer.
 */
module BraceScanner {
  import opened Text
  import opened JsLexer

  /** A state in which a quote or a backquote opens a literal: plain code, or a template expression. */
  ghost predicate Opens(l: Lexer) {
    match l.stack
    case Base => l.trivia in {Plain, Slash}
    case On(top, _) => l.trivia.Plain? && top.Expr?
  }

  /** The state in which the literal opened at `l` leaves the lexer. */
  ghost function Closed(l: Lexer): Lexer {
    l.(trivia := Plain)
  }

  /** The depth does not move between `i` and `j`. */
  ghost predicate Level(s: string, i: nat, j: nat, l: Lexer)
    requires i <= j <= |s|
  {
    forall k :: i <= k <= j ==> Run(s, i, k, l).depth == l.depth
  }

  lemma LevelJoins(s: string, i: nat, k: nat, j: nat, l: Lexer)
    requires i <= k <= j <= |s|
    requires Level(s, i, k, l) && Level(s, k, j, Run(s, i, k, l))
    ensures Level(s, i, j, l)
  {
    hide Run;
    forall n | i <= n <= j ensures Run(s, i, n, l).depth == l.depth {
      if n >= k {
        RunSplit(s, i, k, n, l);
        assert Run(s, k, n, Run(s, i, k, l)).depth == Run(s, i, k, l).depth == l.depth;
      }
    }
  }

  /** Reading one more character. */
  lemma Next(s: string, i: nat, j: nat, l: Lexer, m: Lexer)
    requires i <= j < |s| && Level(s, i, j, l)
    requires Run(s, i, j, l) == m && Step(m, s[j]).depth == l.depth
    ensures Run(s, i, j + 1, l) == Step(m, s[j]) && Level(s, i, j + 1, l)
  {
    hide Run, Step;
    OneMore(s, i, j, l);
  }

  /**
   * Everything a skipping helper promises: it advances, stays in bounds, keeps the depth, and ends at the
   * first place where the lexer has left the literal, or at the end of the text.
   */
  ghost predicate Skipped(s: string, pos: nat, r: nat, l: Lexer) {
    && pos < r <= |s|
    && Level(s, pos, r, l)
    && (r < |s| ==> Run(s, pos, r, l) == Closed(l))
    && (forall k :: pos < k < r ==> Run(s, pos, k, l) != Closed(l))
  }

  function Height(stack: Stack): nat {
    match stack
    case Base => 0
    case On(_, rest) => 1 + Height(rest)
  }

  /** In the run from `i`, more than `h` contexts are open after every character between `k` and `j`. */
  ghost predicate Above(s: string, i: nat, k: nat, j: nat, l: Lexer, h: nat)
    requires i <= k <= j <= |s|
  {
    forall n :: k < n <= j ==> Height(Run(s, i, n, l).stack) > h
  }

  lemma AboveNext(s: string, i: nat, k: nat, j: nat, l: Lexer, m: Lexer, h: nat)
    requires i <= k <= j < |s| && Above(s, i, k, j, l, h)
    requires Run(s, i, j, l) == m && Height(Step(m, s[j]).stack) > h
    ensures Above(s, i, k, j + 1, l, h)
  {
    hide Run, Step;
    OneMore(s, i, j, l);
  }

  lemma AboveOne(s: string, i: nat, j: nat, l: Lexer, m: Lexer, h: nat)
    requires i < j <= |s| && Run(s, i, j, l) == m && Height(m.stack) > h
    ensures Above(s, i, j - 1, j, l, h)
  {
    hide Run;
  }

  /** Between its opening and its end a literal stays on the stack. */
  ghost predicate Within(s: string, pos: nat, r: nat, l: Lexer)
    requires pos < r <= |s|
  {
    Above(s, pos, pos, r - 1, l, Height(l.stack)) && Height(Run(s, pos, r, l).stack) >= Height(l.stack)
  }

  /** So its end is the first place where the lexer is back. */
  lemma WithinNotClosed(s: string, pos: nat, r: nat, l: Lexer)
    requires pos < r <= |s| && Within(s, pos, r, l)
    ensures forall k :: pos < k < r ==> Run(s, pos, k, l) != Closed(l)
  {
    hide Run;
  }

  /** A literal inside a run stays above what is open around it. */
  lemma AboveJoins(s: string, pos: nat, k: nat, i: nat, j: nat, l: Lexer, m: Lexer, h: nat)
    requires pos <= k <= i < j <= |s| && Above(s, pos, k, i, l, h) && Run(s, pos, i, l) == m
    requires Within(s, i, j, m) && Height(m.stack) > h
    ensures Above(s, pos, k, j, l, h)
  {
    hide Run, Height;
    forall n | k < n <= j ensures Height(Run(s, pos, n, l).stack) > h {
      if n > i {
        RunSplit(s, pos, i, n, l);
      }
    }
  }

  method SkipStringLiteral(content: string, pos: nat, ghost l: Lexer) returns (r: nat)
    requires pos < |content| && IsQuote(content[pos]) && Opens(l)
    ensures Skipped(content, pos, r, l) && Within(content, pos, r, l)
  {
    hide Run;
    var quote := content[pos];
    var i := pos + 1;
    ghost var body, h := Open(l, Quoted(quote, false)), Height(l.stack);
    RunNothing(content, pos, l);
    Next(content, pos, pos, l, l);
    AboveNext(content, pos, pos, pos, l, l, h);
    while i < |content|
      invariant pos < i <= |content| + 1
      invariant Level(content, pos, Min(i, |content|), l)
      invariant Above(content, pos, pos, Min(i, |content|), l, h)
      invariant i < |content| ==> Run(content, pos, i, l) == body
      decreases |content| + 1 - i
    {
      Next(content, pos, i, l, body);
      if content[i] == '\\' {
        ghost var escaped := Open(l, Quoted(quote, true));
        AboveNext(content, pos, pos, i, l, body, h);
        if i + 1 < |content| {
          Next(content, pos, i + 1, l, escaped);
          AboveNext(content, pos, pos, i + 1, l, escaped, h);
        }
        i := i + 2;
        continue;
      }
      if content[i] == quote {
        WithinNotClosed(content, pos, i + 1, l);
        return i + 1;
      }
      AboveNext(content, pos, pos, i, l, body, h);
      i := i + 1;
    }
    WithinNotClosed(content, pos, |content|, l);
    return |content|;
  }

  lemma RunNothing(s: string, i: nat, l: Lexer)
    requires i <= |s|
    ensures Run(s, i, i, l) == l && Level(s, i, i, l)
  {
  }

  method SkipTemplateLiteral(content: string, pos: nat, ghost l: Lexer) returns (r: nat)
    requires pos < |content| && content[pos] == '`' && Opens(l)
    ensures Skipped(content, pos, r, l) && Within(content, pos, r, l)
    decreases |content| - pos, 0
  {
    hide Run;
    var i := pos + 1;
    ghost var dollar, h := false, Height(l.stack);
    RunNothing(content, pos, l);
    Next(content, pos, pos, l, l);
    AboveNext(content, pos, pos, pos, l, l, h);
    while i < |content|
      invariant pos < i <= |content| + 1
      invariant Level(content, pos, Min(i, |content|), l)
      invariant Above(content, pos, pos, Min(i, |content|), l, h)
      invariant i < |content| ==> Run(content, pos, i, l) == Open(l, Template(false, dollar))
      invariant i < |content| && dollar ==> content[i] != '{'
      decreases |content| + 1 - i
    {
      ghost var body := Open(l, Template(false, dollar));
      Next(content, pos, i, l, body);
      if content[i] == '\\' {
        AboveNext(content, pos, pos, i, l, body, h);
        if i + 1 < |content| {
          Next(content, pos, i + 1, l, Open(l, Template(true, false)));
          AboveNext(content, pos, pos, i + 1, l, Open(l, Template(true, false)), h);
        }
        i, dollar := i + 2, false;
        continue;
      }
      if content[i] == '`' {
        WithinNotClosed(content, pos, i + 1, l);
        return i + 1;
      }
      AboveNext(content, pos, pos, i, l, body, h);
      if content[i] == '$' && i + 1 < |content| && content[i + 1] == '{' {
        Next(content, pos, i + 1, l, Open(l, Template(false, true)));
        AboveNext(content, pos, pos, i + 1, l, Open(l, Template(false, true)), h);
        i := SkipExpression(content, i + 2, pos, l);
        dollar := false;
        continue;
      }
      dollar := content[i] == '$';
      i := i + 1;
    }
    WithinNotClosed(content, pos, |content|, l);
    return |content|;
  }

  /** The inner loop of `skipTemplateLiteral`: from just after `${` to just after the matching brace. */
  method SkipExpression(content: string, from: nat, ghost pos: nat, ghost l: Lexer) returns (r: nat)
    requires pos < from <= |content|
    requires Opens(l)
    requires Level(content, pos, from, l) && Above(content, pos, pos, from, l, Height(l.stack))
    requires Run(content, pos, from, l) == Open(Open(l, Template(false, false)), Expr(1))
    ensures from <= r <= |content|
    ensures Level(content, pos, r, l) && Above(content, pos, pos, r, l, Height(l.stack))
    ensures r < |content| ==> Run(content, pos, r, l) == Open(l, Template(false, false))
    ensures forall k :: from <= k < r ==> Run(content, pos, k, l) != Open(l, Template(false, false))
    decreases |content| - from, 1
  {
    hide Run;
    var i, depth := from, 1;
    ghost var t, h := Open(l, Template(false, false)), Height(l.stack);
    AboveOne(content, pos, from, l, Open(t, Expr(1)), h + 1);
    while i < |content| && depth > 0
      invariant from <= i <= |content| && depth >= 0
      invariant depth == 0 ==> i < |content|
      invariant Level(content, pos, i, l)
      invariant Above(content, pos, from - 1, i, l, h + 1)
      invariant depth == 0 ==> Run(content, pos, i, l) == Open(t, Expr(1)) && content[i] == '}'
      invariant depth > 0 && i < |content| ==> Run(content, pos, i, l) == Open(t, Expr(depth))
      decreases |content| - i, depth
    {
      ghost var m := Open(t, Expr(depth));
      if content[i] == '{' {
        Next(content, pos, i, l, m);
        depth := depth + 1;
      } else if content[i] == '}' {
        Next(content, pos, i, l, m);
        depth := depth - 1;
      } else if IsQuote(content[i]) {
        var j := SkipStringLiteral(content, i, m);
        Landed(content, pos, i, j, l, m);
        AboveJoins(content, pos, from - 1, i, j, l, m, h + 1);
        i := j;
        continue;
      } else if content[i] == '`' {
        var j := SkipTemplateLiteral(content, i, m);
        Landed(content, pos, i, j, l, m);
        AboveJoins(content, pos, from - 1, i, j, l, m, h + 1);
        i := j;
        continue;
      } else {
        Next(content, pos, i, l, m);
      }
      if depth > 0 {
        AboveNext(content, pos, from - 1, i, l, m, h + 1);
        i := i + 1;
      }
    }
    AboveBoth(content, pos, from, i, l, h);
    if depth == 0 {
      Next(content, pos, i, l, Open(t, Expr(1)));
      AboveNext(content, pos, pos, i, l, Open(t, Expr(1)), h);
      i := i + 1;
    }
    return i;
  }

  /** A template expression stays above the template, and so above what is around it. */
  lemma AboveBoth(s: string, pos: nat, from: nat, i: nat, l: Lexer, h: nat)
    requires pos < from <= i <= |s| && h == Height(l.stack)
    requires Above(s, pos, pos, from, l, h) && Above(s, pos, from - 1, i, l, h + 1)
    ensures Above(s, pos, pos, i, l, h)
    ensures forall k :: from <= k <= i ==> Run(s, pos, k, l) != Open(l, Template(false, false))
  {
    hide Run;
  }

  /** A skipped literal inside a run is part of the run. */
  lemma Landed(s: string, pos: nat, i: nat, j: nat, l: Lexer, m: Lexer)
    requires pos <= i < |s| && Level(s, pos, i, l) && Run(s, pos, i, l) == m && Skipped(s, i, j, m)
    ensures Level(s, pos, j, l)
    ensures j < |s| ==> Run(s, pos, j, l) == Closed(m)
  {
    hide Run;
    LevelJoins(s, pos, i, j, l);
    RunSplit(s, pos, i, j, l);
  }

  // ----- Comments -----

  lemma {:induction false} InLine(s: string, i: nat, k: nat, l: Lexer)
    requires i + 2 <= k <= |s| && s[i] == '/' && s[i + 1] == '/'
    requires l.stack.Base? && l.trivia.Plain?
    requires forall n :: i <= n < k ==> s[n] != '\n'
    ensures Level(s, i, k, l) && Run(s, i, k, l) == l.(trivia := Line)
    ensures forall n :: i < n <= k ==> Run(s, i, n, l) != Closed(l)
  {
    hide Run;
    if k == i + 2 {
      RunNothing(s, i, l);
      Next(s, i, i, l, l);
      Next(s, i, i + 1, l, l.(trivia := Slash));
    } else {
      InLine(s, i, k - 1, l);
      Next(s, i, k - 1, l, l.(trivia := Line));
    }
  }

  /** A line comment that starts at `i` and whose first line break is at `nl` (or missing: -1). */
  lemma SkipLine(s: string, i: nat, nl: int, l: Lexer)
    requires i + 1 < |s| && s[i] == '/' && s[i + 1] == '/' && l.stack.Base? && l.trivia.Plain?
    requires nl == IndexFrom(s, ['\n'], i)
    ensures Skipped(s, i, if nl == -1 then |s| else nl + 1, l)
  {
    hide Run, IndexFrom;
    forall n: nat | i <= n < |s| ensures s[n] == '\n' <==> OccursAt(s, ['\n'], n) { OccursPointwise(s, ['\n'], n); }
    if nl == -1 {
      InLine(s, i, |s|, l);
    } else {
      InLine(s, i, nl, l);
      Next(s, i, nl, l, l.(trivia := Line));
    }
  }

  lemma {:induction false} InBlock(s: string, i: nat, k: nat, l: Lexer)
    requires i + 2 <= k <= |s| && s[i] == '/' && s[i + 1] == '*' && l.stack.Base? && l.trivia.Plain?
    requires forall n :: i + 2 <= n < k - 1 ==> !(s[n] == '*' && s[n + 1] == '/')
    ensures Level(s, i, k, l)
    ensures Run(s, i, k, l) == l.(trivia := if k > i + 2 && s[k - 1] == '*' then BlockStar else Block)
    ensures forall n :: i < n <= k ==> Run(s, i, n, l) != Closed(l)
  {
    hide Run;
    if k == i + 2 {
      RunNothing(s, i, l);
      Next(s, i, i, l, l);
      Next(s, i, i + 1, l, l.(trivia := Slash));
    } else {
      InBlock(s, i, k - 1, l);
      if k - 1 > i + 2 { assert !(s[k - 2] == '*' && s[k - 1] == '/'); }
      Next(s, i, k - 1, l, Run(s, i, k - 1, l));
    }
  }

  /** A block comment that starts at `i` and whose first terminator is at `end` (or missing: -1). */
  lemma SkipBlock(s: string, i: nat, end: int, l: Lexer)
    requires i + 1 < |s| && s[i] == '/' && s[i + 1] == '*' && l.stack.Base? && l.trivia.Plain?
    requires end == IndexFrom(s, "*/", i + 2)
    ensures Skipped(s, i, if end == -1 then |s| else end + 2, l)
  {
    hide Run, IndexFrom;
    forall n: nat | i + 2 <= n < |s| - 1 ensures (s[n] == '*' && s[n + 1] == '/') <==> OccursAt(s, "*/", n) {
      OccursPointwise(s, "*/", n);
      assert "*/"[0] == '*' && "*/"[1] == '/';
    }
    if end == -1 {
      InBlock(s, i, |s|, l);
    } else {
      InBlock(s, i, end + 1, l);
      Next(s, i, end + 1, l, l.(trivia := BlockStar));
    }
  }

  // ----- The scanner -----

  /** The lexer is in plain code, and the next character cannot turn a pending slash into a comment. */
  ghost predicate AtCode(l: Lexer, s: string, i: nat, depth: int)
    requires i < |s|
  {
    l.stack.Base? && l.depth == depth && (l.trivia.Plain? || (l.trivia.Slash? && s[i] !in {'/', '*'}))
  }

  lemma OpenJoins(s: string, open: nat, i: nat, j: nat, l: Lexer)
    requires open < i <= j <= |s| && StaysOpen(s, open, i, START)
    requires Run(s, open, i, START) == l && Level(s, i, j, l)
    ensures StaysOpen(s, open, j, START)
  {
    hide Run;
    assert l.depth >= 1;
    forall k | open < k <= j ensures Run(s, open, k, START).depth >= 1 {
      if k > i {
        RunSplit(s, open, i, k, START);
        assert Run(s, i, k, l).depth == l.depth;
      }
    }
  }

  /** After a skipped literal or comment the scan is in plain code again, at the same depth. */
  lemma Resume(s: string, open: nat, i: nat, j: nat, depth: int)
    requires open < i < |s| && StaysOpen(s, open, i, START)
    requires AtCode(Run(s, open, i, START), s, i, depth) && Skipped(s, i, j, Run(s, open, i, START))
    ensures StaysOpen(s, open, j, START)
    ensures j < |s| ==> AtCode(Run(s, open, j, START), s, j, depth)
  {
    hide Run;
    OpenJoins(s, open, i, j, Run(s, open, i, START));
    RunSplit(s, open, i, j, START);
  }

  /**
   * `findMatchingBrace`: the first character at which the lexer's depth is back to zero, or -1,
   * exactly when there is no brace to match or the lexer reaches the end of the text first.
   */
  method FindMatchingBrace(content: string, openPos: int) returns (r: int)
    ensures -1 <= r < |content|
    ensures r != -1 ==> openPos >= 0 && Closes(content, openPos, r)
    ensures r == -1 <==> !(0 <= openPos < |content| && content[openPos] == '{') || NeverCloses(content, openPos)
  {
    hide Run;
    if !(0 <= openPos < |content| && content[openPos] == '{') {
      return -1;
    }
    var depth, i, len := 0, openPos, |content|;
    RunNothing(content, openPos, START);
    while i < len
      invariant openPos <= i <= len
      invariant i == openPos ==> depth == 0
      invariant i > openPos ==> depth >= 1
      invariant StaysOpen(content, openPos, i, START)
      invariant i < len ==> AtCode(Run(content, openPos, i, START), content, i, depth)
      decreases len - i
    {
      ghost var l := Run(content, openPos, i, START);
      var ch := content[i];
      if ch == '\'' || ch == '"' {
        var j := SkipStringLiteral(content, i, l);
        Resume(content, openPos, i, j, depth);
        i := j;
        continue;
      }
      if ch == '`' {
        var j := SkipTemplateLiteral(content, i, l);
        Resume(content, openPos, i, j, depth);
        i := j;
        continue;
      }
      if ch == '/' && i + 1 < len {
        var next := content[i + 1];
        if next == '/' {
          var nl := IndexFrom(content, ['\n'], i);
          var j := if nl == -1 then len else nl + 1;
          SkipLine(content, i, nl, l);
          Resume(content, openPos, i, j, depth);
          i := j;
          continue;
        }
        if next == '*' {
          var end := IndexFrom(content, "*/", i + 2);
          var j := if end == -1 then len else end + 2;
          SkipBlock(content, i, end, l);
          Resume(content, openPos, i, j, depth);
          i := j;
          continue;
        }
      }
      OneMore(content, openPos, i, START);
      if ch == '{' {
        depth := depth + 1;
      } else if ch == '}' {
        depth := depth - 1;
        if depth == 0 {
          return i;
        }
      }
      i := i + 1;
    }
    return -1;
  }
}
