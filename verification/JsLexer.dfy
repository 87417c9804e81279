/**
 * What the brace scanner is meant to see: a lexer that reads one character at a time and
 * keeps a stack of open lexical contexts.  It knows nothing of indices or of skipping ahead.
 */
module JsLexer {

  /** A context opened inside code. */
  datatype Frame =
    | Quoted(quote: char, escaped: bool)
    | Template(escaped: bool, dollar: bool) // `dollar`: the last character was an unescaped `$`
    | Expr(braces: nat)                     // `${ ... }`, with its count of open braces

  datatype Stack = Base | On(top: Frame, rest: Stack)

  /** What the last characters of plain code have begun. */
  datatype Trivia = Plain | Slash | Line | Block | BlockStar

  /** `depth` counts braces of plain code only. */
  datatype Lexer = Lexer(depth: int, trivia: Trivia, stack: Stack)

  predicate IsQuote(c: char) { c == '\'' || c == '"' }

  /** A character of plain code, or of a template expression: what it opens. */
  function Open(l: Lexer, f: Frame): Lexer {
    l.(trivia := Plain, stack := On(f, l.stack))
  }

  function InCode(l: Lexer, c: char): Lexer {
    if c == '{' then l.(depth := l.depth + 1, trivia := Plain)
    else if c == '}' then l.(depth := l.depth - 1, trivia := Plain)
    else if IsQuote(c) then Open(l, Quoted(c, false))
    else if c == '`' then Open(l, Template(false, false))
    else if c == '/' then l.(trivia := Slash)
    else l.(trivia := Plain)
  }

  function InBase(l: Lexer, c: char): Lexer {
    match l.trivia
    case Plain => InCode(l, c)
    case Slash =>
      if c == '/' then l.(trivia := Line)
      else if c == '*' then l.(trivia := Block)
      else InCode(l, c)
    case Line => if c == '\n' then l.(trivia := Plain) else l
    case Block => if c == '*' then l.(trivia := BlockStar) else l
    case BlockStar =>
      if c == '/' then l.(trivia := Plain)
      else if c == '*' then l
      else l.(trivia := Block)
  }

  function InFrame(l: Lexer, c: char): Lexer
    requires l.stack.On?
  {
    var On(top, rest) := l.stack;
    match top
    case Quoted(q, escaped) =>
      if escaped then l.(stack := On(Quoted(q, false), rest))
      else if c == '\\' then l.(stack := On(Quoted(q, true), rest))
      else if c == q then l.(stack := rest)
      else l
    case Template(escaped, dollar) =>
      if escaped then l.(stack := On(Template(false, false), rest))
      else if c == '\\' then l.(stack := On(Template(true, false), rest))
      else if c == '`' then l.(stack := rest)
      else if dollar && c == '{' then l.(stack := On(Expr(1), On(Template(false, false), rest)))
      else l.(stack := On(Template(false, c == '$'), rest))
    case Expr(n) =>
      if c == '{' then l.(stack := On(Expr(n + 1), rest))
      else if c == '}' then (if n <= 1 then l.(stack := rest) else l.(stack := On(Expr(n - 1), rest)))
      else if IsQuote(c) then l.(stack := On(Quoted(c, false), l.stack))
      else if c == '`' then l.(stack := On(Template(false, false), l.stack))
      else l
  }

  function Step(l: Lexer, c: char): Lexer {
    if l.stack.Base? then InBase(l, c) else InFrame(l, c)
  }

  /** The lexer after reading `s[i..j]` from state `l`. */
  function Run(s: string, i: nat, j: nat, l: Lexer): Lexer
    requires i <= j <= |s|
  {
    if i == j then l else Step(Run(s, i, j - 1, l), s[j - 1])
  }

  const START := Lexer(0, Plain, Base)

  lemma {:induction false} RunSplit(s: string, i: nat, k: nat, j: nat, l: Lexer)
    requires i <= k <= j <= |s|
    ensures Run(s, i, j, l) == Run(s, k, j, Run(s, i, k, l))
    decreases j - k
  {
    if k < j { RunSplit(s, i, k, j - 1, l); }
  }

  lemma DropLast(s: string, i: nat, j: nat)
    requires i < j <= |s|
    ensures s[i..j - 1] == s[i..j][..j - i - 1] && s[j - 1] == s[i..j][j - i - 1]
  {
  }

  /** The run depends only on the characters read. */
  lemma {:induction false} RunShift(s: string, i: nat, j: nat, t: string, i': nat, j': nat, l: Lexer)
    requires i <= j <= |s| && i' <= j' <= |t| && s[i..j] == t[i'..j']
    ensures Run(s, i, j, l) == Run(t, i', j', l)
    decreases j - i
  {
    assert |s[i..j]| == j - i && |t[i'..j']| == j' - i';
    if i < j {
      DropLast(s, i, j);
      DropLast(t, i', j');
      RunShift(s, i, j - 1, t, i', j' - 1, l);
    }
  }

  /** The lexer's moves do not depend on the depth it counts. */
  lemma {:induction false} RunDeeper(s: string, i: nat, j: nat, l: Lexer, d: int)
    requires i <= j <= |s|
    ensures Run(s, i, j, l.(depth := l.depth + d)) == Run(s, i, j, l).(depth := Run(s, i, j, l).depth + d)
    decreases j - i
  {
    if i < j { RunDeeper(s, i, j - 1, l, d); }
  }

  // ----- Depth zero: where a brace block ends -----

  /** Every state of the run through `s[i..j]`, the last one included, has a depth of at least one. */
  ghost predicate StaysOpen(s: string, i: nat, j: nat, l: Lexer)
    requires i <= j <= |s|
  {
    forall k :: i < k <= j ==> Run(s, i, k, l).depth >= 1
  }

  /** `r` is the first character at which the depth, counted from the brace at `open`, is back to zero. */
  ghost predicate Closes(s: string, open: nat, r: nat) {
    && open < r < |s|
    && s[open] == '{'
    && StaysOpen(s, open, r, START)
    && Run(s, open, r + 1, START).depth == 0
  }

  /** The block that begins at `open` never ends. */
  ghost predicate NeverCloses(s: string, open: nat)
    requires open < |s|
  {
    StaysOpen(s, open, |s|, START)
  }

  lemma ClosesOnce(s: string, open: nat, r: nat, r': nat)
    requires Closes(s, open, r) && Closes(s, open, r')
    ensures r == r'
  {
    hide Run;
  }

  /** What the lexer reads at the closing character: a brace of plain code at depth one. */
  lemma AtClose(s: string, open: nat, r: nat)
    requires Closes(s, open, r)
    ensures s[r] == '}'
    ensures var l := Run(s, open, r, START); l.depth == 1 && l.stack.Base? && l.trivia in {Plain, Slash}
  {
    hide Run;
    var l := Run(s, open, r, START);
    OneMore(s, open, r, START);
    assert l.depth >= 1;
  }

  lemma OneMore(s: string, i: nat, j: nat, l: Lexer)
    requires i <= j < |s|
    ensures Run(s, i, j + 1, l) == Step(Run(s, i, j, l), s[j])
  {
  }

  /** Matching is local: only the text up to the closing brace matters. */
  lemma ClosesLocally(s: string, open: nat, r: nat, t: string, open': nat)
    requires Closes(s, open, r)
    requires open' + (r - open) < |t| && t[open'..open' + (r - open) + 1] == s[open..r + 1]
    ensures Closes(t, open', open' + (r - open))
  {
    hide Run;
    var n := r - open;
    var a, b := s[open..r + 1], t[open'..open' + n + 1];
    assert t[open'] == b[0] == a[0] == s[open];
    forall k | open' < k <= open' + n + 1 ensures Run(t, open', k, START) == Run(s, open, open + (k - open'), START) {
      assert t[open'..k] == b[..k - open'] == a[..k - open'] == s[open..open + (k - open')];
      RunShift(t, open', k, s, open, open + (k - open'), START);
    }
    assert Run(t, open', open' + n + 1, START) == Run(s, open, r + 1, START);
    forall k | open' < k <= open' + n ensures Run(t, open', k, START).depth >= 1 {
      assert Run(s, open, open + (k - open'), START).depth >= 1;
    }
  }
}
