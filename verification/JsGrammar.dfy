/**
 * Well-formed stretches of JavaScript, written down as a grammar without a lexer: blocks, strings,
 * templates with nested expressions, and comments.  The lexer and the scanner are checked against it.
 */
module JsGrammar {
  import opened Text
  import opened JsLexer
  import opened BraceScanner
  import WrapFunction

  /** Plain code.  A template expression is not code: comments have no meaning there. */
  datatype Code =
    | End
    | Char(c: char, rest: Code)
    | Block(body: Code, rest: Code)
    | Str(q: char, text: string, rest: Code)
    | Tpl(parts: Parts, rest: Code)
    | LineComment(text: string, rest: Code)
    | BlockComment(text: string, rest: Code)

  /** What stands between two backquotes. */
  datatype Parts =
    | NoPart
    | Letter(c: char, more: Parts)
    | Escape(c: char, more: Parts)
    | Hole(expr: Expr, more: Parts)

  /** What stands in a hole of a template. */
  datatype Expr =
    | Nothing
    | Sign(c: char, tail: Expr)
    | Braces(inner: Expr, tail: Expr)
    | ExprStr(q: char, text: string, tail: Expr)
    | ExprTpl(parts: Parts, tail: Expr)

  // ----- How it is written -----

  function Quoted(q: char, text: string): string {
    [q] + text + [q]
  }

  function Written(c: Code): string
    decreases c, 1
  {
    if c.End? then "" else Item(c) + Written(c.rest)
  }

  /** The first item of a code. */
  function Item(c: Code): string
    requires !c.End?
    decreases c, 0
  {
    match c
    case Char(x, _) => [x]
    case Block(body, _) => "{" + Written(body) + "}"
    case Str(q, text, _) => Quoted(q, text)
    case Tpl(parts, _) => Quoted('`', WrittenParts(parts))
    case LineComment(text, _) => "//" + text + "\n"
    case BlockComment(text, _) => "/*" + text + "*/"
  }

  function WrittenParts(p: Parts): string {
    match p
    case NoPart => ""
    case Letter(x, more) => [x] + WrittenParts(more)
    case Escape(x, more) => ['\\', x] + WrittenParts(more)
    case Hole(e, more) => "${" + WrittenExpr(e) + "}" + WrittenParts(more)
  }

  function WrittenExpr(e: Expr): string {
    match e
    case Nothing => ""
    case Sign(x, tail) => [x] + WrittenExpr(tail)
    case Braces(inner, tail) => "{" + WrittenExpr(inner) + "}" + WrittenExpr(tail)
    case ExprStr(q, text, tail) => Quoted(q, text) + WrittenExpr(tail)
    case ExprTpl(parts, tail) => Quoted('`', WrittenParts(parts)) + WrittenExpr(tail)
  }

  // ----- What is well-formed -----

  /** The text of a string: a backslash hides the character behind it; no other quote of its kind stands in it. */
  ghost predicate StringText(text: string, q: char) {
    text == "" ||
    (if text[0] == '\\' then |text| >= 2 && StringText(text[2..], q) else text[0] != q && StringText(text[1..], q))
  }

  /** A block comment's text does not hold its end. */
  ghost predicate CommentText(text: string) {
    forall k :: 0 <= k < |text| - 1 ==> !(text[k] == '*' && text[k + 1] == '/')
  }

  /** The first character of a text, if there is one, is none of two. */
  ghost predicate BeginsWithout(text: string, a: char, b: char) {
    text == "" || (text[0] != a && text[0] != b)
  }

  ghost predicate Formed(c: Code) {
    match c
    case End => true
    case Char(x, rest) =>
      && x != '"' && x != '\'' && x != '`' && x != '{' && x != '}'
      && (x == '/' ==> BeginsWithout(Written(rest), '/', '*'))
      && Formed(rest)
    case Block(body, rest) => Formed(body) && Formed(rest)
    case Str(q, text, rest) => (q == '"' || q == '\'') && StringText(text, q) && Formed(rest)
    case Tpl(parts, rest) => FormedParts(parts) && Formed(rest)
    case LineComment(text, rest) => '\n' !in text && Formed(rest)
    case BlockComment(text, rest) => CommentText(text) && Formed(rest)
  }

  ghost predicate FormedParts(p: Parts) {
    match p
    case NoPart => true
    case Letter(x, more) =>
      && x != '`' && x != '\\'
      && (x == '$' ==> BeginsWithout(WrittenParts(more), '{', '{'))
      && FormedParts(more)
    case Escape(x, more) => FormedParts(more)
    case Hole(e, more) => FormedExpr(e) && FormedParts(more)
  }

  ghost predicate FormedExpr(e: Expr) {
    match e
    case Nothing => true
    case Sign(x, tail) => x != '"' && x != '\'' && x != '`' && x != '{' && x != '}' && FormedExpr(tail)
    case Braces(inner, tail) => FormedExpr(inner) && FormedExpr(tail)
    case ExprStr(q, text, tail) => (q == '"' || q == '\'') && StringText(text, q) && FormedExpr(tail)
    case ExprTpl(parts, tail) => FormedParts(parts) && FormedExpr(tail)
  }

  // ----- The lexer reads it as written -----

  /** Reading `s[i..j]` leads from `l` to `m` and does not move the depth. */
  ghost predicate Reads(s: string, i: nat, j: nat, l: Lexer, m: Lexer) {
    i <= j <= |s| && Run(s, i, j, l) == m && Level(s, i, j, l)
  }

  lemma ReadsJoin(s: string, i: nat, k: nat, j: nat, l: Lexer, m: Lexer, n: Lexer)
    requires Reads(s, i, k, l, m) && Reads(s, k, j, m, n)
    ensures Reads(s, i, j, l, n)
  {
    hide Run;
    LevelJoins(s, i, k, j, l);
    RunSplit(s, i, k, j, l);
  }

  lemma ReadsOne(s: string, i: nat, c: char, l: Lexer, m: Lexer)
    requires i < |s| && s[i] == c && Step(l, c) == m && m.depth == l.depth
    ensures Reads(s, i, i + 1, l, m)
  {
    hide Run, Step;
    RunNothing(s, i, l);
    Next(s, i, i, l, l);
  }

  lemma ReadsNothing(s: string, i: nat, l: Lexer)
    requires i <= |s|
    ensures Reads(s, i, i, l, l)
  {
    hide Run;
    RunNothing(s, i, l);
  }

  /** Where the parts of a written text stand. */
  lemma Parted(s: string, i: nat, j: nat, x: string, y: string)
    requires i <= j <= |s| && s[i..j] == x + y
    ensures i + |x| <= j && s[i..i + |x|] == x && s[i + |x|..j] == y
    ensures x != "" ==> s[i] == x[0]
  {
    assert |s[i..j]| == j - i;
    assert s[i..i + |x|] == s[i..j][..|x|] && s[i + |x|..j] == s[i..j][|x|..];
    if x != "" {
      assert s[i..j][0] == s[i] && (x + y)[0] == x[0];
    }
  }

  /** Where a text between braces stands. */
  lemma Enclosed(s: string, i: nat, j: nat, w: string, more: string)
    requires i <= j <= |s| && s[i..j] == "{" + w + "}" + more
    ensures i + |w| + 2 <= j && s[i] == '{' && s[i + 1..i + |w| + 1] == w
    ensures s[i + |w| + 1] == '}' && s[i + |w| + 2..j] == more
  {
    assert "{" + w + "}" + more == "{" + (w + ("}" + more));
    Parted(s, i, j, "{", w + ("}" + more));
    Parted(s, i + 1, j, w, "}" + more);
    Parted(s, i + |w| + 1, j, "}", more);
  }

  /** The text of a string is read inside the string. */
  lemma {:induction false} StringTextReads(s: string, i: nat, j: nat, text: string, q: char, l: Lexer)
    requires i <= j <= |s| && s[i..j] == text && (q == '"' || q == '\'') && StringText(text, q)
    requires l.stack.On? && l.stack.top == Frame.Quoted(q, false)
    ensures Reads(s, i, j, l, l)
    decreases |text|
  {
    hide Run;
    assert |s[i..j]| == j - i;
    if text == "" {
      ReadsNothing(s, i, l);
    } else {
      assert s[i] == text[0];
      if text[0] == '\\' {
        var m := l.(stack := On(Frame.Quoted(q, true), l.stack.rest));
        assert s[i + 1] == text[1];
        ReadsOne(s, i, '\\', l, m);
        ReadsOne(s, i + 1, s[i + 1], m, l);
        ReadsJoin(s, i, i + 1, i + 2, l, m, l);
        assert s[i + 2..j] == text[2..];
        StringTextReads(s, i + 2, j, text[2..], q, l);
        ReadsJoin(s, i, i + 2, j, l, l, l);
      } else {
        ReadsOne(s, i, text[0], l, l);
        assert s[i + 1..j] == text[1..];
        StringTextReads(s, i + 1, j, text[1..], q, l);
        ReadsJoin(s, i, i + 1, j, l, l, l);
      }
    }
  }

  /** A string, in plain code or in a template expression, leaves the lexer where it was. */
  lemma StringReads(s: string, i: nat, j: nat, q: char, text: string, l: Lexer)
    requires i <= j <= |s| && s[i..j] == Quoted(q, text) && (q == '"' || q == '\'') && StringText(text, q) && Opens(l)
    ensures Reads(s, i, j, l, Closed(l))
  {
    hide Run;
    var m := Open(l, Frame.Quoted(q, false));
    assert Quoted(q, text) == [q] + (text + [q]);
    Parted(s, i, j, [q], text + [q]);
    Parted(s, i + 1, j, text, [q]);
    ReadsOne(s, i, q, l, m);
    StringTextReads(s, i + 1, j - 1, text, q, m);
    ReadsOne(s, j - 1, q, m, Closed(l));
    ReadsJoin(s, i, i + 1, j - 1, l, m, m);
    ReadsJoin(s, i, j - 1, j, l, m, Closed(l));
  }

  /** The parts of a template are read inside the template. */
  lemma {:induction false} PartsRead(s: string, i: nat, j: nat, p: Parts, l: Lexer, dollar: bool) returns (after: bool)
    requires i <= j <= |s| && s[i..j] == WrittenParts(p) && FormedParts(p) && Opens(l)
    requires dollar ==> BeginsWithout(WrittenParts(p), '{', '{')
    ensures Reads(s, i, j, Open(l, Template(false, dollar)), Open(l, Template(false, after)))
    decreases p, 0
  {
    hide Run;
    var t := Open(l, Template(false, dollar));
    assert |s[i..j]| == j - i;
    match p {
      case NoPart =>
        after := dollar;
        ReadsNothing(s, i, t);
      case Letter(x, more) =>
        var m := Open(l, Template(false, x == '$'));
        Parted(s, i, j, [x], WrittenParts(more));
        ReadsOne(s, i, x, t, m);
        after := PartsRead(s, i + 1, j, more, l, x == '$');
        ReadsJoin(s, i, i + 1, j, t, m, Open(l, Template(false, after)));
      case Escape(x, more) =>
        var m, n := Open(l, Template(true, false)), Open(l, Template(false, false));
        Parted(s, i, j, ['\\', x], WrittenParts(more));
        assert s[i..i + 2][1] == s[i + 1];
        ReadsOne(s, i, '\\', t, m);
        ReadsOne(s, i + 1, x, m, n);
        ReadsJoin(s, i, i + 1, i + 2, t, m, n);
        after := PartsRead(s, i + 2, j, more, l, false);
        ReadsJoin(s, i, i + 2, j, t, n, Open(l, Template(false, after)));
      case Hole(e, more) =>
        var k := HoleReads(s, i, j, e, WrittenParts(more), l, dollar);
        after := PartsRead(s, k, j, more, l, false);
        ReadsJoin(s, i, k, j, t, Open(l, Template(false, false)), Open(l, Template(false, after)));
    }
  }

  /** A hole leads back into its template. */
  lemma {:induction false} HoleReads(
    s: string, i: nat, j: nat, e: Expr, more: string, l: Lexer, dollar: bool
  ) returns (k: nat)
    requires i <= j <= |s| && s[i..j] == "${" + WrittenExpr(e) + "}" + more && FormedExpr(e) && Opens(l)
    ensures i < k <= j && s[k..j] == more
    ensures Reads(s, i, k, Open(l, Template(false, dollar)), Open(l, Template(false, false)))
    decreases e, 1
  {
    hide Run;
    var w := WrittenExpr(e);
    var t, d, b := Open(l, Template(false, dollar)), Open(l, Template(false, true)), Open(l, Template(false, false));
    var x := Open(b, Frame.Expr(1));
    k := i + |w| + 3;
    assert "${" + w + "}" + more == "$" + ("{" + w + "}" + more);
    Parted(s, i, j, "$", "{" + w + "}" + more);
    Enclosed(s, i + 1, j, w, more);
    ReadsOne(s, i, '$', t, d);
    ReadsOne(s, i + 1, '{', d, x);
    ReadsJoin(s, i, i + 1, i + 2, t, d, x);
    ExprReads(s, i + 2, k - 1, e, x, 1);
    ReadsJoin(s, i, i + 2, k - 1, t, x, x);
    ReadsOne(s, k - 1, '}', x, b);
    ReadsJoin(s, i, k - 1, k, t, x, b);
  }

  /** An expression is read inside its hole. */
  lemma {:induction false} ExprReads(s: string, i: nat, j: nat, e: Expr, l: Lexer, n: nat)
    requires i <= j <= |s| && s[i..j] == WrittenExpr(e) && FormedExpr(e)
    requires l.stack.On? && l.stack.top == Frame.Expr(n) && n >= 1 && l.trivia.Plain?
    ensures Reads(s, i, j, l, l)
    decreases e, 0
  {
    hide Run;
    assert |s[i..j]| == j - i;
    match e {
      case Nothing => ReadsNothing(s, i, l);
      case Sign(x, tail) =>
        Parted(s, i, j, [x], WrittenExpr(tail));
        ReadsOne(s, i, x, l, l);
        ExprReads(s, i + 1, j, tail, l, n);
        ReadsJoin(s, i, i + 1, j, l, l, l);
      case Braces(inner, tail) =>
        var k := BracesRead(s, i, j, inner, WrittenExpr(tail), l, n);
        ExprReads(s, k, j, tail, l, n);
        ReadsJoin(s, i, k, j, l, l, l);
      case ExprStr(q, text, tail) =>
        var k := i + |Quoted(q, text)|;
        Parted(s, i, j, Quoted(q, text), WrittenExpr(tail));
        StringReads(s, i, k, q, text, l);
        ExprReads(s, k, j, tail, l, n);
        ReadsJoin(s, i, k, j, l, l, l);
      case ExprTpl(parts, tail) =>
        var k := i + |Quoted('`', WrittenParts(parts))|;
        Parted(s, i, j, Quoted('`', WrittenParts(parts)), WrittenExpr(tail));
        TemplateReads(s, i, k, parts, l);
        ExprReads(s, k, j, tail, l, n);
        ReadsJoin(s, i, k, j, l, l, l);
    }
  }

  /** Braces in an expression lead back to where they began. */
  lemma {:induction false} BracesRead(
    s: string, i: nat, j: nat, e: Expr, more: string, l: Lexer, n: nat
  ) returns (k: nat)
    requires i <= j <= |s| && s[i..j] == "{" + WrittenExpr(e) + "}" + more && FormedExpr(e)
    requires l.stack.On? && l.stack.top == Frame.Expr(n) && n >= 1 && l.trivia.Plain?
    ensures i < k <= j && s[k..j] == more && Reads(s, i, k, l, l)
    decreases e, 1
  {
    hide Run;
    var w, m := WrittenExpr(e), l.(stack := On(Frame.Expr(n + 1), l.stack.rest));
    k := i + |w| + 2;
    Enclosed(s, i, j, w, more);
    ReadsOne(s, i, '{', l, m);
    ExprReads(s, i + 1, k - 1, e, m, n + 1);
    ReadsJoin(s, i, i + 1, k - 1, l, m, m);
    ReadsOne(s, k - 1, '}', m, l);
    ReadsJoin(s, i, k - 1, k, l, m, l);
  }

  /** A template, in plain code or in a template expression, leaves the lexer where it was. */
  lemma {:induction false} TemplateReads(s: string, i: nat, j: nat, p: Parts, l: Lexer)
    requires i <= j <= |s| && s[i..j] == Quoted('`', WrittenParts(p)) && FormedParts(p) && Opens(l)
    ensures Reads(s, i, j, l, Closed(l))
    decreases p, 1
  {
    hide Run;
    var w, m := WrittenParts(p), Open(l, Template(false, false));
    assert Quoted('`', w) == "`" + (w + "`");
    Parted(s, i, j, "`", w + "`");
    Parted(s, i + 1, j, w, "`");
    ReadsOne(s, i, '`', l, m);
    var after := PartsRead(s, i + 1, j - 1, p, l, false);
    var n := Open(l, Template(false, after));
    ReadsOne(s, j - 1, '`', n, Closed(l));
    ReadsJoin(s, i, i + 1, j - 1, l, m, n);
    ReadsJoin(s, i, j - 1, j, l, n, Closed(l));
  }

  /** A line comment, its line break included, is read from plain code to plain code. */
  lemma LineReads(s: string, i: nat, j: nat, text: string, l: Lexer)
    requires i <= j <= |s| && s[i..j] == "//" + text + "\n" && '\n' !in text
    requires l.stack.Base? && l.trivia.Plain?
    ensures Reads(s, i, j, l, l)
  {
    hide Run;
    assert "//" + text + "\n" == "//" + (text + "\n");
    Parted(s, i, j, "//", text + "\n");
    Parted(s, i + 2, j, text, "\n");
    assert s[i..i + 2][1] == s[i + 1];
    forall n | i <= n < j - 1 ensures s[n] != '\n' {
      if n >= i + 2 { assert s[n] == text[n - i - 2]; }
    }
    InLine(s, i, j - 1, l);
    Next(s, i, j - 1, l, l.(trivia := Trivia.Line));
  }

  /** A block comment is read from plain code to plain code. */
  lemma BlockCommentReads(s: string, i: nat, j: nat, text: string, l: Lexer)
    requires i <= j <= |s| && s[i..j] == "/*" + text + "*/" && CommentText(text)
    requires l.stack.Base? && l.trivia.Plain?
    ensures Reads(s, i, j, l, l)
  {
    hide Run;
    assert "/*" + text + "*/" == "/*" + (text + "*/");
    Parted(s, i, j, "/*", text + "*/");
    assert s[i..i + 2][1] == s[i + 1];
    var t := text + "*/";
    forall n | i + 2 <= n < j ensures s[n] == t[n - i - 2] { assert s[n] == s[i + 2..j][n - i - 2]; }
    assert t[|text|] == '*' && t[|text| + 1] == '/';
    forall n | i + 2 <= n < j - 2 ensures !(s[n] == '*' && s[n + 1] == '/') {
      assert !(t[n - i - 2] == '*' && t[n - i - 2 + 1] == '/');
    }
    InBlock(s, i, j - 1, l);
    Next(s, i, j - 1, l, l.(trivia := BlockStar));
  }

  /** Reading `s[i..j]` from plain code leads to plain code at the same depth and never falls below it. */
  ghost predicate Balanced(s: string, i: nat, j: nat, l: Lexer) {
    && i <= j <= |s|
    && l.stack.Base? && l.trivia in {Plain, Slash}
    && var m := Run(s, i, j, l);
    && m.stack.Base? && m.trivia in {Plain, Slash} && m.depth == l.depth
    && NotBelow(s, i, j, l)
  }

  /** The depth never falls below the one it has at `i`. */
  ghost predicate NotBelow(s: string, i: nat, j: nat, l: Lexer)
    requires i <= j <= |s|
  {
    forall k :: i <= k <= j ==> Run(s, i, k, l).depth >= l.depth
  }

  /** After the first character, a brace more is open. */
  ghost predicate Deeper(s: string, i: nat, j: nat, l: Lexer)
    requires i <= j <= |s|
  {
    forall k :: i < k <= j ==> Run(s, i, k, l).depth >= l.depth + 1
  }

  lemma BalancedJoin(s: string, i: nat, k: nat, j: nat, l: Lexer, m: Lexer)
    requires Balanced(s, i, k, l) && Run(s, i, k, l) == m && Balanced(s, k, j, m)
    ensures Balanced(s, i, j, l)
  {
    hide Run;
    RunSplit(s, i, k, j, l);
    forall n | i <= n <= j ensures Run(s, i, n, l).depth >= l.depth {
      if n >= k { RunSplit(s, i, k, n, l); }
    }
  }

  /** What leads from plain code to plain code. */
  lemma ReadsBalanced(s: string, i: nat, j: nat, l: Lexer, m: Lexer)
    requires Reads(s, i, j, l, m)
    requires l.stack.Base? && l.trivia in {Plain, Slash} && m.stack.Base? && m.trivia in {Plain, Slash}
    requires m.depth == l.depth
    ensures Balanced(s, i, j, l)
  {
    hide Run;
  }

  /** A balanced text between braces is balanced. */
  lemma BracesBalanced(s: string, i: nat, j: nat, l: Lexer)
    requires i < j < |s| && s[i] == '{' && s[j] == '}' && l.stack.Base? && l.trivia in {Plain, Slash}
    requires Balanced(s, i + 1, j, Lexer(l.depth + 1, Plain, Base))
    ensures Balanced(s, i, j + 1, l) && Run(s, i, j + 1, l) == Lexer(l.depth, Plain, Base)
    ensures Deeper(s, i, j, l)
  {
    hide *;
    var m := Lexer(l.depth + 1, Plain, Base);
    BalancedMeans(s, i + 1, j, m);
    BraceSteps(l, m, Run(s, i + 1, j, m));
    RunNothing(s, i, l);
    OneMore(s, i, i, l);
    AfterFirst(s, i, i + 1, j, l, m);
    OneMore(s, i, j, l);
    MakesBalanced(s, i, j, l);
  }

  lemma BalancedMeans(s: string, i: nat, j: nat, l: Lexer)
    requires Balanced(s, i, j, l)
    ensures var m := Run(s, i, j, l); m.stack.Base? && m.trivia in {Plain, Slash} && m.depth == l.depth
    ensures NotBelow(s, i, j, l)
  {
    hide Run, NotBelow;
  }

  lemma MakesBalanced(s: string, i: nat, j: nat, l: Lexer)
    requires i < j < |s| && l.stack.Base? && l.trivia in {Plain, Slash}
    requires Run(s, i, i, l) == l && Run(s, i, j + 1, l) == Lexer(l.depth, Plain, Base)
    requires Deeper(s, i, j, l)
    ensures Balanced(s, i, j + 1, l)
  {
    hide Run;
    forall k | i <= k <= j + 1 ensures Run(s, i, k, l).depth >= l.depth {
      assert i < k <= j ==> Run(s, i, k, l).depth >= l.depth + 1;
    }
  }

  lemma AfterFirst(s: string, i: nat, i': nat, j: nat, l: Lexer, m: Lexer)
    requires i < i' == i + 1 <= j <= |s| && Run(s, i, i', l) == m && m.depth == l.depth + 1
    requires NotBelow(s, i', j, m)
    ensures Run(s, i, j, l) == Run(s, i', j, m) && Deeper(s, i, j, l)
  {
    hide Run;
    RunSplit(s, i, i', j, l);
    forall k | i < k <= j ensures Run(s, i, k, l).depth >= m.depth {
      RunSplit(s, i, i', k, l);
      assert Run(s, i', k, m).depth >= m.depth;
    }
  }

  lemma BraceSteps(l: Lexer, m: Lexer, n: Lexer)
    requires l.stack.Base? && l.trivia in {Plain, Slash} && n.stack.Base? && n.trivia in {Plain, Slash}
    requires m == Lexer(l.depth + 1, Plain, Base) && n.depth == m.depth
    ensures Step(l, '{') == m && Step(n, '}') == Lexer(l.depth, Plain, Base)
  {
  }

  /** Well-formed code is balanced wherever it stands in plain code. */
  lemma {:induction false} CodeReads(s: string, i: nat, j: nat, c: Code, l: Lexer)
    requires i <= j <= |s| && s[i..j] == Written(c) && Formed(c)
    requires l.stack.Base? && l.trivia in {Plain, Slash}
    requires l.trivia.Slash? ==> BeginsWithout(Written(c), '/', '*')
    ensures Balanced(s, i, j, l)
    decreases c, 1
  {
    hide Run;
    assert |s[i..j]| == j - i;
    if c.End? {
      ReadsNothing(s, i, l);
      ReadsBalanced(s, i, j, l, l);
    } else {
      var k := FirstReads(s, i, j, c, l);
      CodeReads(s, k, j, c.rest, Run(s, i, k, l));
      BalancedJoin(s, i, k, j, l, Run(s, i, k, l));
    }
  }

  /** The first item of a code. */
  lemma {:induction false} FirstReads(s: string, i: nat, j: nat, c: Code, l: Lexer) returns (k: nat)
    requires i <= j <= |s| && s[i..j] == Written(c) && Formed(c) && !c.End?
    requires l.stack.Base? && l.trivia in {Plain, Slash}
    requires l.trivia.Slash? ==> BeginsWithout(Written(c), '/', '*')
    ensures i < k <= j && s[k..j] == Written(c.rest) && Balanced(s, i, k, l)
    ensures Run(s, i, k, l).trivia.Slash? ==> BeginsWithout(Written(c.rest), '/', '*')
    decreases c, 0
  {
    hide Run;
    var first := Item(c);
    Parted(s, i, j, first, Written(c.rest));
    k := i + |first|;
    match c {
      case Char(x, rest) =>
        var m := l.(trivia := if x == '/' then Slash else Plain);
        ReadsOne(s, i, x, l, m);
        ReadsBalanced(s, i, k, l, m);
      case Block(body, rest) =>
        BlockReads(s, i, k, body, l);
      case Str(q, text, rest) =>
        StringReads(s, i, k, q, text, l);
        ReadsBalanced(s, i, k, l, Closed(l));
      case Tpl(parts, rest) =>
        TemplateReads(s, i, k, parts, l);
        ReadsBalanced(s, i, k, l, Closed(l));
      case LineComment(text, rest) =>
        LineReads(s, i, k, text, l);
        ReadsBalanced(s, i, k, l, l);
      case BlockComment(text, rest) =>
        BlockCommentReads(s, i, k, text, l);
        ReadsBalanced(s, i, k, l, l);
    }
  }

  /** A well-formed block. */
  lemma {:induction false} BlockReads(s: string, i: nat, j: nat, c: Code, l: Lexer)
    requires i <= j <= |s| && s[i..j] == "{" + Written(c) + "}" && Formed(c)
    requires l.stack.Base? && l.trivia in {Plain, Slash}
    ensures Balanced(s, i, j, l) && Run(s, i, j, l) == Lexer(l.depth, Plain, Base)
    ensures s[i] == '{' && Deeper(s, i, j - 1, l)
    decreases c, 2
  {
    hide Run, Deeper, Balanced;
    assert "{" + Written(c) + "}" + "" == "{" + Written(c) + "}";
    Enclosed(s, i, j, Written(c), "");
    CodeReads(s, i + 1, j - 1, c, Lexer(l.depth + 1, Plain, Base));
    BracesBalanced(s, i, j - 1, l);
  }

  // ----- What the scanner finds -----

  /** A well-formed block ends at its own brace, whatever strings, templates and comments it holds. */
  lemma BlockMatches(s: string, open: nat, c: Code)
    requires Formed(c)
    requires open + |Written(c)| + 2 <= |s| && s[open..open + |Written(c)| + 2] == "{" + Written(c) + "}"
    ensures forall r: nat :: Closes(s, open, r) <==> r == open + 1 + |Written(c)|
  {
    hide Run;
    var r := open + 1 + |Written(c)|;
    BlockReads(s, open, r + 1, c, START);
    forall r': nat | Closes(s, open, r') ensures r' == r { ClosesOnce(s, open, r, r'); }
  }

  /** From plain code, reading leads back to the same state and never leaves the depth: nothing is seen inside. */
  ghost predicate Unseen(s: string, i: nat, j: nat, l: Lexer) {
    l.stack.Base? && l.trivia.Plain? && Reads(s, i, j, l, l)
  }

  lemma {:induction false} FreeText(text: string, q: char)
    requires q !in text && '\\' !in text
    ensures StringText(text, q)
  {
    if text != "" { FreeText(text[1..], q); }
  }

  lemma {:induction false} EscapedText(a: string, b: string, q: char)
    requires q !in a && '\\' !in a && q !in b && '\\' !in b
    ensures StringText(a + ['\\', q] + b, q)
  {
    var t := a + ['\\', q] + b;
    if a == "" {
      FreeText(b, q);
      assert t[2..] == b;
    } else {
      EscapedText(a[1..], b, q);
      assert t[1..] == a[1..] + ['\\', q] + b;
    }
  }

  /** A string in either quote hides its text, and an escaped quote of its own kind with it. */
  lemma StringUnseen(s: string, i: nat, j: nat, q: char, a: string, b: string, l: Lexer)
    requires i <= j <= |s| && l.stack.Base? && l.trivia.Plain?
    requires (q == '"' || q == '\'') && q !in a && '\\' !in a && q !in b && '\\' !in b
    requires s[i..j] == [q] + a + [q] || s[i..j] == [q] + (a + ['\\', q] + b) + [q]
    ensures Unseen(s, i, j, l)
  {
    FreeText(a, q);
    EscapedText(a, b, q);
    hide StringText;
    StringReads(s, i, j, q, if s[i..j] == [q] + a + [q] then a else a + ['\\', q] + b, l);
  }

  /** A text as the letters of a template. */
  function Letters(w: string): (p: Parts)
    ensures WrittenParts(p) == w
  {
    if w == "" then NoPart else Letter(w[0], Letters(w[1..]))
  }

  lemma {:induction false} LettersFormed(w: string)
    requires '`' !in w && '\\' !in w
    requires forall k :: 0 <= k < |w| - 1 ==> !(w[k] == '$' && w[k + 1] == '{')
    ensures FormedParts(Letters(w))
  {
    if w != "" {
      LettersFormed(w[1..]);
      assert w[1..] != "" ==> !(w[0] == '$' && w[1] == '{');
    }
  }

  /** A template without holes hides its text. */
  lemma TemplateUnseen(s: string, i: nat, j: nat, w: string, l: Lexer)
    requires i <= j <= |s| && l.stack.Base? && l.trivia.Plain? && s[i..j] == "`" + w + "`"
    requires '`' !in w && '\\' !in w
    requires forall k :: 0 <= k < |w| - 1 ==> !(w[k] == '$' && w[k + 1] == '{')
    ensures Unseen(s, i, j, l)
  {
    LettersFormed(w);
    TemplateReads(s, i, j, Letters(w), l);
  }

  /** A template with one hole hides a string in that hole, whatever braces and backquotes that holds. */
  lemma HoleUnseen(s: string, i: nat, j: nat, q: char, w: string, l: Lexer)
    requires i <= j <= |s| && l.stack.Base? && l.trivia.Plain?
    requires (q == '"' || q == '\'') && q !in w && '\\' !in w && s[i..j] == "`${" + [q] + w + [q] + "}`"
    ensures Unseen(s, i, j, l)
  {
    FreeText(w, q);
    hide StringText;
    var e := ExprStr(q, w, Nothing);
    var p := Hole(e, NoPart);
    assert FormedExpr(Nothing) && FormedExpr(e) && FormedParts(NoPart);
    assert WrittenExpr(e) == [q] + w + [q];
    assert WrittenParts(p) == "${" + ([q] + w + [q]) + "}";
    assert Quoted('`', WrittenParts(p)) == s[i..j];
    TemplateReads(s, i, j, p, l);
  }

  /** A line comment hides its text up to the line break, a block comment up to its end. */
  lemma CommentUnseen(s: string, i: nat, j: nat, w: string, l: Lexer)
    requires i <= j <= |s| && l.stack.Base? && l.trivia.Plain?
    requires
      || (s[i..j] == "//" + w + "\n" && '\n' !in w)
      || (s[i..j] == "/*" + w + "*/" && forall k :: 0 <= k < |w| - 1 ==> !(w[k] == '*' && w[k + 1] == '/'))
    ensures Unseen(s, i, j, l)
  {
    if s[i..j] == "//" + w + "\n" && '\n' !in w {
      LineReads(s, i, j, w, l);
    } else {
      BlockCommentReads(s, i, j, w, l);
    }
  }

  /** The scanner never takes a place inside such a stretch for the matching brace. */
  lemma NotInside(s: string, open: nat, i: nat, j: nat, r: nat)
    requires open < i <= j <= |s| && Unseen(s, i, j, Run(s, open, i, START))
    requires Closes(s, open, r)
    ensures r < i || j <= r
  {
    hide Run;
    var l := Run(s, open, i, START);
    forall k | i <= k <= j ensures Run(s, open, k, START).depth == l.depth { RunSplit(s, open, i, k, START); }
    assert r >= i ==> l.depth >= 1;
  }

  // ----- Wrapping with well-formed code -----

  /** Well-formed code carries every depth. */
  lemma FormedCarries(c: Code, depth: nat)
    requires Formed(c) && depth >= 1
    ensures WrapFunction.Carries(Written(c), depth, depth)
  {
    hide Run;
    var w := Written(c);
    assert w[0..|w|] == w;
    CodeReads(w, 0, |w|, c, WrapFunction.Code(depth));
  }

  /** A slash is pending only right behind one. */
  lemma {:induction false} SlashLast(s: string, i: nat, j: nat, l: Lexer)
    requires i <= j <= |s| && l.trivia.Plain? && l.stack.Base?
    ensures var m := Run(s, i, j, l);
            && (m.stack.On? ==> m.trivia.Plain?)
            && (m.trivia.Slash? ==> i < j && s[j - 1] == '/')
    decreases j - i
  {
    if i < j { SlashLast(s, i, j - 1, l); }
  }

  /** Wrapping a block's body between two well-formed texts keeps the match, if no slash stands at the seams. */
  lemma WrapFormed(s: string, open: nat, r: nat, before: Code, after: Code)
    requires Closes(s, open, r) && Formed(before) && Formed(after)
    requires s[r - 1] != '/' && (Written(before) == "" || Written(before)[|Written(before)| - 1] != '/')
    ensures var b, a := Written(before), Written(after);
            Closes(WrapFunction.WrapAt(s, open + 1, r, b, a), open, r + |b| + |a|)
  {
    hide Run;
    var b, a := Written(before), Written(after);
    FormedCarries(before, 1);
    FormedCarries(after, 1);
    SlashLast(b, 0, |b|, WrapFunction.Code(1));
    SlashLast(s, open, r, START);
    AtClose(s, open, r);
    WrapFunction.WrapKeepsMatchExactly(s, open, r, b, a, 0);
  }
}
