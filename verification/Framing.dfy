/** Line framing of a byte stream that arrives in chunks. */
module Framing {

  /** The complete lines of `s`: the texts in front of its line breaks. */
  function Complete(s: string): seq<string> {
    if s == "" then []
    else
      var front, c := s[..|s| - 1], s[|s| - 1];
      if c == '\n' then Complete(front) + [Rest(front)] else Complete(front)
  }

  /** What follows the last line break of `s`. */
  function Rest(s: string): string {
    if s == "" then ""
    else
      var front, c := s[..|s| - 1], s[|s| - 1];
      if c == '\n' then "" else Rest(front) + [c]
  }

  /** Lines written out again, each with its line break. */
  function Join(lines: seq<string>): string {
    if lines == [] then "" else Join(lines[..|lines| - 1]) + lines[|lines| - 1] + "\n"
  }

  /** Splitting loses nothing and leaves no line break inside a line. */
  lemma {:induction false} SplitJoin(s: string)
    ensures Join(Complete(s)) + Rest(s) == s
    ensures '\n' !in Rest(s) && forall l :: l in Complete(s) ==> '\n' !in l
  {
    if s != "" {
      var front, c := s[..|s| - 1], s[|s| - 1];
      SplitJoin(front);
      assert s == front + [c];
      if c == '\n' {
        assert (Complete(front) + [Rest(front)])[..|Complete(front)|] == Complete(front);
      }
    }
  }

  /** Reading a stream up to `a` and then on is reading it in one go. */
  lemma {:induction false} SplitAnywhere(a: string, b: string)
    ensures Complete(a + b) == Complete(a) + Complete(Rest(a) + b)
    ensures Rest(a + b) == Rest(Rest(a) + b)
  {
    if b == "" {
      assert a + b == a && Rest(a) + b == Rest(a);
      NoBreak(Rest(a));
      SplitJoin(a);
    } else {
      var front, c := b[..|b| - 1], b[|b| - 1];
      SplitAnywhere(a, front);
      assert (a + b)[..|a + b| - 1] == a + front && (Rest(a) + b)[..|Rest(a) + b| - 1] == Rest(a) + front;
      if c == '\n' {
        assert Complete(Rest(a) + b) == Complete(Rest(a) + front) + [Rest(Rest(a) + front)];
      }
    }
  }

  lemma {:induction false} NoBreak(s: string)
    ensures '\n' !in s ==> Complete(s) == [] && Rest(s) == s
  {
    if s != "" {
      NoBreak(s[..|s| - 1]);
      assert s == s[..|s| - 1] + [s[|s| - 1]];
    }
  }

  /** The characters `trim` strips: white space and line terminators. */
  predicate IsSpace(c: char) {
    var n := c as int;
    9 <= n <= 13 || n in {0x20, 0xA0, 0x1680, 0x2028, 0x2029, 0x202F, 0x205F, 0x3000, 0xFEFF} || 0x2000 <= n <= 0x200A
  }

  /** Nothing is left of the line when it is trimmed. */
  predicate Blank(line: string) {
    forall c :: c in line ==> IsSpace(c)
  }

  /** White space and line terminators, as sections 12.2 and 12.3 of ECMA-262 list them. */
  lemma SpacesAre(c: char)
    ensures IsSpace(c) <==>
            || c in {'\t', '\n', '\U{0B}', '\U{0C}', '\r', ' ', '\U{A0}', '\U{1680}', '\U{2028}', '\U{2029}'}
            || '\U{2000}' <= c <= '\U{200A}' || c in {'\U{202F}', '\U{205F}', '\U{3000}', '\U{FEFF}'}
  {
  }

  /** A line of spaces and tabs is skipped, and one with a printable character, as every JSON text has, never is. */
  lemma Trimmed(line: string)
    ensures (forall c :: c in line ==> c == ' ' || c == '\t' || c == '\r') ==> Blank(line)
    ensures (exists c :: c in line && '!' <= c <= '~') ==> !Blank(line)
  {
  }

  function NonBlank(lines: seq<string>): seq<string> {
    if lines == [] then []
    else NonBlank(lines[..|lines| - 1]) + (if Blank(lines[|lines| - 1]) then [] else [lines[|lines| - 1]])
  }

  lemma {:induction false} NonBlankAppend(a: seq<string>, b: seq<string>)
    ensures NonBlank(a + b) == NonBlank(a) + NonBlank(b)
  {
    if b == [] {
      assert a + b == a;
    } else {
      hide NonBlank;
      var front, line := b[..|b| - 1], b[|b| - 1];
      NonBlankAppend(a, front);
      assert a + b == a + front + [line] && b == front + [line];
      NonBlankMore(a + front, line);
      NonBlankMore(front, line);
    }
  }

  lemma NonBlankMore(lines: seq<string>, line: string)
    ensures NonBlank(lines + [line]) == NonBlank(lines) + (if Blank(line) then [] else [line])
  {
    assert (lines + [line])[..|lines|] == lines;
  }

  /** Skipping keeps every other line, the blank ones only are gone. */
  lemma {:induction false} NonBlankKeeps(lines: seq<string>)
    ensures forall l :: l in NonBlank(lines) <==> l in lines && !Blank(l)
    ensures forall l :: !Blank(l) ==> multiset(NonBlank(lines))[l] == multiset(lines)[l]
  {
    if lines != [] {
      hide Blank;
      NonBlankKeeps(lines[..|lines| - 1]);
      assert lines == lines[..|lines| - 1] + [lines[|lines| - 1]];
    }
  }

  /** The non-blank complete lines of a stream. */
  function Lines(s: string): seq<string> {
    NonBlank(Complete(s))
  }

  lemma LinesAnywhere(a: string, b: string)
    ensures Lines(a + b) == Lines(a) + Lines(Rest(a) + b)
  {
    SplitAnywhere(a, b);
    NonBlankAppend(Complete(a), Complete(Rest(a) + b));
  }
}
