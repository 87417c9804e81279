/** The `find_function` step: from an anchor text to the offsets of the function body around it. */
module FindFunction {
  import opened Text
  import opened JsLexer
  import opened BraceScanner

  datatype Style = Declaration | Expression | Arrow | Unknown

  datatype Outcome =
    | Found(bodyStart: nat, bodyEnd: nat)
    | AnchorMissing
    | AnchorAmbiguous
    | NoFunction
    | NoOpeningBrace
    | NoClosingBrace

  const WINDOW: nat := 500

  /** The part of the text before `pos` that the backward searches look at. */
  function RegionStart(pos: nat): nat {
    if pos < WINDOW then 0 else pos - WINDOW
  }

  function Region(content: string, pos: nat): string
    requires pos <= |content|
  {
    content[RegionStart(pos)..pos]
  }

  /** `r` is where the last of the needles begins in `region`, or -1. */
  ghost predicate LastOfEither(region: string, a: string, b: string, r: int) {
    && -1 <= r
    && (r >= 0 ==> OccursAt(region, a, r) || OccursAt(region, b, r))
    && forall i :: r < i && i >= 0 ==> !OccursAt(region, a, i) && !OccursAt(region, b, i)
  }

  /** `findFunctionDeclBackward`, on the region */
  method LastDeclaration(region: string) returns (lastIdx: int)
    ensures LastOfEither(region, "function ", "function ", lastIdx)
  {
    hide OccursAt, IndexFrom;
    lastIdx := -1;
    var searchFrom := 0;
    while true
      invariant searchFrom == lastIdx + 1 <= |region| + 1
      invariant lastIdx >= 0 ==> OccursAt(region, "function ", lastIdx)
      decreases |region| + 1 - searchFrom
    {
      var idx := IndexFrom(region, "function ", searchFrom);
      if idx == -1 { break; }
      lastIdx := idx;
      searchFrom := idx + 1;
    }
  }

  /** `findFunctionExprBackward`, on the region: looks for the second spelling only once the first has run out. */
  method LastExpression(region: string) returns (lastIdx: int)
    ensures LastOfEither(region, "function(", "function (", lastIdx)
  {
    hide OccursAt, IndexFrom;
    lastIdx := -1;
    var searchFrom := 0;
    while true
      invariant searchFrom == lastIdx + 1 <= |region| + 1
      invariant lastIdx >= 0 ==> OccursAt(region, "function(", lastIdx) || OccursAt(region, "function (", lastIdx)
      decreases |region| + 1 - searchFrom
    {
      var idx := IndexFrom(region, "function(", searchFrom);
      if idx == -1 {
        var idx2 := IndexFrom(region, "function (", searchFrom);
        if idx2 == -1 { break; }
        lastIdx := idx2;
        searchFrom := idx2 + 1;
        continue;
      }
      lastIdx := idx;
      searchFrom := idx + 1;
    }
  }

  /** The last arrow of the region, or -1. */
  method LastArrow(region: string) returns (idx: int)
    ensures LastOfEither(region, "=>", "=>", idx)
  {
    idx := |region|;
    while idx >= 0 && !OccursAt(region, "=>", idx)
      invariant -1 <= idx <= |region|
      invariant forall i :: idx < i ==> !OccursAt(region, "=>", i)
    {
      idx := idx - 1;
    }
  }

  /** Where the function around `anchorIdx` begins, for each style of function. */
  ghost predicate FunctionAt(content: string, style: Style, anchorIdx: nat, fnStart: int)
    requires anchorIdx <= |content|
  {
    var region := Region(content, anchorIdx);
    var inRegion := if fnStart < 0 then -1 else fnStart - RegionStart(anchorIdx);
    && (fnStart < 0 ==> fnStart == -1)
    && (fnStart >= 0 ==> RegionStart(anchorIdx) <= fnStart)
    && match style
       case Declaration => LastOfEither(region, "function ", "function ", inRegion)
       case Expression => LastOfEither(region, "function(", "function (", inRegion)
       case Arrow => LastOfEither(region, "=>", "=>", inRegion)
       case Unknown => fnStart == -1
  }

  method FindStart(content: string, style: Style, anchorIdx: nat) returns (fnStart: int)
    requires anchorIdx <= |content|
    ensures FunctionAt(content, style, anchorIdx, fnStart)
    ensures fnStart < anchorIdx
  {
    var region := Region(content, anchorIdx);
    var i := -1;
    match style {
      case Declaration => i := LastDeclaration(region);
      case Expression => i := LastExpression(region);
      case Arrow => i := LastArrow(region);
      case Unknown =>
    }
    fnStart := if i == -1 then -1 else RegionStart(anchorIdx) + i;
  }

  /** Of two spellings one stands at `p`, within the 500 characters before `i`, and none stands behind it there. */
  ghost predicate NearestBefore(content: string, a: string, b: string, i: nat, p: int) {
    && -1 <= p
    && (p >= 0 ==>
          && i - 500 <= p
          && ((OccursAt(content, a, p) && p + |a| <= i) || (OccursAt(content, b, p) && p + |b| <= i)))
    && (forall q :: OccursAt(content, a, q) && q + |a| <= i ==> q <= p || q < i - 500)
    && (forall q :: OccursAt(content, b, q) && q + |b| <= i ==> q <= p || q < i - 500)
  }

  lemma OccursInRegion(content: string, f: string, i: nat, q: nat)
    requires i <= |content|
    ensures OccursAt(Region(content, i), f, q) <==>
            OccursAt(content, f, RegionStart(i) + q) && RegionStart(i) + q + |f| <= i
  {
    var start := RegionStart(i);
    var region := Region(content, i);
    if start + q + |f| <= i {
      forall k | q <= k < q + |f| ensures region[k] == content[start + k] {}
      assert region[q..q + |f|] == content[start + q..start + q + |f|];
    }
  }

  lemma RegionNearest(content: string, a: string, b: string, i: nat, p: int)
    requires i <= |content| && -1 <= p && (p >= 0 ==> RegionStart(i) <= p)
    requires LastOfEither(Region(content, i), a, b, if p < 0 then -1 else p - RegionStart(i))
    ensures NearestBefore(content, a, b, i, p)
  {
    hide OccursAt;
    var region, start := Region(content, i), RegionStart(i);
    if p >= 0 {
      OccursInRegion(content, a, i, p - start);
      OccursInRegion(content, b, i, p - start);
    }
    forall q | OccursAt(content, a, q) && q + |a| <= i ensures q <= p || q < i - 500 {
      if q >= start { OccursInRegion(content, a, i, q - start); } else { OccursNotBefore(content, a, q); }
    }
    forall q | OccursAt(content, b, q) && q + |b| <= i ensures q <= p || q < i - 500 {
      if q >= start { OccursInRegion(content, b, i, q - start); } else { OccursNotBefore(content, b, q); }
    }
  }

  lemma OccursNotBefore(content: string, f: string, q: int)
    requires OccursAt(content, f, q)
    ensures q >= 0
  {
  }

  /** Seen in the whole text: the function begins at the nearest spelling of its style before the anchor. */
  lemma FunctionNearest(content: string, i: nat, fnStart: int)
    requires i <= |content|
    ensures FunctionAt(content, Declaration, i, fnStart) ==>
              NearestBefore(content, "function ", "function ", i, fnStart)
    ensures FunctionAt(content, Expression, i, fnStart) ==>
              NearestBefore(content, "function(", "function (", i, fnStart)
    ensures FunctionAt(content, Arrow, i, fnStart) ==> NearestBefore(content, "=>", "=>", i, fnStart)
    ensures FunctionAt(content, Unknown, i, fnStart) ==> fnStart == -1
  {
    hide LastOfEither, NearestBefore;
    if FunctionAt(content, Declaration, i, fnStart) {
      RegionNearest(content, "function ", "function ", i, fnStart);
    }
    if FunctionAt(content, Expression, i, fnStart) {
      RegionNearest(content, "function(", "function (", i, fnStart);
    }
    if FunctionAt(content, Arrow, i, fnStart) {
      RegionNearest(content, "=>", "=>", i, fnStart);
    }
  }

  /** The anchor occurs once, at `i`. */
  ghost predicate UniqueAt(content: string, anchor: string, i: nat) {
    OccursAt(content, anchor, i) && forall k :: k != i ==> !OccursAt(content, anchor, k)
  }

  /**
   * `executeFindFunction`, without the function's name.  On success the offsets enclose the block
   * that opens at the first brace after the function's start; each failure has its own cause.
   */
  method ExecuteFindFunction(content: string, anchor: string, style: Style) returns (res: Outcome)
    ensures res.AnchorMissing? <==> anchor != "" && !Includes(content, anchor)
    ensures res.Found? || res.NoFunction? || res.NoOpeningBrace? || res.NoClosingBrace? ==>
      exists i: nat, fnStart ::
        && UniqueAt(content, anchor, i) && FunctionAt(content, style, i, fnStart)
        && (res.NoFunction? <==> fnStart == -1)
        && (fnStart >= 0 ==>
              var brace := IndexFrom(content, "{", fnStart);
              && (res.NoOpeningBrace? <==> brace == -1 || brace > i)
              && (res.NoClosingBrace? ==> NeverCloses(content, brace))
              && (res.Found? ==>
                    && res.bodyStart == brace + 1 && Closes(content, brace, res.bodyEnd)
                    && (res.bodyStart <= i && i + |anchor| <= res.bodyEnd <==>
                          AnchorInside(content, brace, i, i + |anchor|))))
    ensures res.AnchorAmbiguous? ==>
              anchor == "" || exists i, k :: i < k && OccursAt(content, anchor, i) && OccursAt(content, anchor, k)
  {
    hide OccursAt, IndexFrom, Closes, NeverCloses, FunctionAt, AnchorInside;
    var anchorIdx := IndexOf(content, anchor);
    if anchor == "" {
      return AnchorAmbiguous; // an empty text is found again at the next offset
    }
    if anchorIdx == -1 {
      return AnchorMissing;
    }
    if IndexFrom(content, anchor, anchorIdx + 1) != -1 {
      return AnchorAmbiguous;
    }
    assert UniqueAt(content, anchor, anchorIdx) by { NegativeNever(content, anchor); }
    var fnStart := FindStart(content, style, anchorIdx);
    if fnStart == -1 {
      return NoFunction;
    }
    NonNegative(content, style, anchorIdx, fnStart);
    var braceStart := IndexFrom(content, "{", fnStart);
    if braceStart == -1 || braceStart > anchorIdx {
      return NoOpeningBrace;
    }
    var braceEnd := FindMatchingBrace(content, braceStart);
    BraceIs(content, braceStart);
    if braceEnd == -1 {
      return NoClosingBrace;
    }
    AnchorInsideExactly(content, anchor, anchorIdx, braceStart, braceEnd);
    res := Found(braceStart + 1, braceEnd);
  }

  lemma NegativeNever(content: string, anchor: string)
    ensures forall k :: k < 0 ==> !OccursAt(content, anchor, k)
  {
  }

  lemma NonNegative(content: string, style: Style, i: nat, fnStart: int)
    requires i <= |content| && FunctionAt(content, style, i, fnStart) && fnStart != -1
    ensures fnStart >= 0
  {
  }

  lemma BraceIs(content: string, i: nat)
    requires OccursAt(content, "{", i)
    ensures content[i] == '{'
  {
    OccursPointwise(content, "{", i);
    assert "{"[0] == '{';
  }

  // ----- Where the anchor ends up -----

  /** The text from `i` to `e` lies behind the brace, and the block is not over before its end. */
  ghost predicate AnchorInside(content: string, brace: nat, i: nat, e: nat) {
    brace < i <= e <= |content| && StaysOpen(content, brace, e, START)
  }

  /**
   * The step compares the anchor with the opening brace only, and lets it begin there.  So the recorded
   * body holds the whole anchor exactly when it begins behind the brace and the depth has not come back
   * to zero by its end.
   */
  lemma AnchorInsideExactly(content: string, anchor: string, i: nat, brace: nat, bodyEnd: nat)
    requires Closes(content, brace, bodyEnd) && OccursAt(content, anchor, i) && anchor != "" && brace <= i
    ensures brace + 1 <= i && i + |anchor| <= bodyEnd <==> AnchorInside(content, brace, i, i + |anchor|)
  {
    hide Run;
  }

  /** The two examples below: a short function whose name and parameter list take twelve characters. */
  lemma ShortFunction(content: string, i: nat)
    requires 12 <= i <= 14 && i <= |content| && content[..i] <= "function f(){}" && |content| <= 15
    ensures FunctionAt(content, Declaration, i, 0)
  {
    OnlyDeclaration(content[..i]);
    hide LastOfEither, OccursAt, IndexFrom;
    assert content[0..i] == content[..i];
  }

  lemma OnlyBrace(content: string)
    requires |content| == 15 && content[12] == '{' && forall k :: 0 <= k < 15 && k != 12 ==> content[k] != '{'
    ensures IndexFrom(content, "{", 0) == 12
  {
    hide IndexFrom;
    SingleLetter(content, "{", 12);
    IndexFromIs(content, "{", 0, 12);
  }

  lemma ClosesSoon(content: string, r: nat)
    requires 12 < r <= 14 && |content| == 15 && content[12] == '{' && content[r] == '}'
    requires r == 14 ==> content[13] == 'X'
    ensures Closes(content, 12, r)
  {
    ThreeSteps();
    hide Run, Step;
    RunNothing(content, 12, START);
    OneMore(content, 12, 12, START);
    OneMore(content, 12, 13, START);
    if r == 14 { OneMore(content, 12, 14, START); }
  }

  lemma ThreeSteps()
    ensures var l := Lexer(1, Plain, Base);
            Step(START, '{') == l && Step(l, 'X') == l && Step(l, '}').depth == 0
  {
  }

  /** A function whose recorded body ends before the anchor it was found by. */
  lemma AnchorOutside(content: string, anchor: string)
    requires content == "function f(){}X" && anchor == "X"
    ensures UniqueAt(content, anchor, 14) && FunctionAt(content, Declaration, 14, 0)
    ensures IndexFrom(content, "{", 0) == 12 && Closes(content, 12, 13)
    ensures !AnchorInside(content, 12, 14, 15)
  {
    hide Run, IndexFrom, OccursAt, FunctionAt, AnchorInside;
    SingleLetter(content, anchor, 14);
    ShortFunction(content, 14);
    OnlyBrace(content);
    ClosesSoon(content, 13);
    AnchorInsideExactly(content, anchor, 14, 12, 13);
  }

  /** A function whose anchor begins with its opening brace: the recorded body begins behind the brace. */
  lemma AnchorAtBrace(content: string, anchor: string)
    requires content == "function f(){X}" && anchor == "{X"
    ensures UniqueAt(content, anchor, 12) && FunctionAt(content, Declaration, 12, 0)
    ensures IndexFrom(content, "{", 0) == 12 && Closes(content, 12, 14)
    ensures !AnchorInside(content, 12, 12, 14)
  {
    hide Run, IndexFrom, OccursAt, FunctionAt;
    BeginsWithLetter(content, anchor, 12);
    ShortFunction(content, 12);
    OnlyBrace(content);
    ClosesSoon(content, 14);
  }

  /** A text whose first letter stands only at `i` occurs only there. */
  lemma BeginsWithLetter(s: string, f: string, i: nat)
    requires |f| > 0 && i + |f| <= |s| && s[i..i + |f|] == f
    requires forall k :: 0 <= k < |s| && k != i ==> s[k] != f[0]
    ensures UniqueAt(s, f, i)
  {
    forall k | OccursAt(s, f, k) ensures k == i {
      assert s[k] == s[k..k + |f|][0];
    }
  }

  lemma SingleLetter(s: string, f: string, i: nat)
    requires |f| == 1 && i < |s| && s[i] == f[0]
    requires forall k :: 0 <= k < |s| && k != i ==> s[k] != f[0]
    ensures UniqueAt(s, f, i)
  {
    hide IndexFrom;
    assert s[i..i + 1] == f;
    forall k | k != i ensures !OccursAt(s, f, k) {
      OccursLetter(s, f, k, 0);
    }
  }

  lemma OnlyDeclaration(region: string)
    requires |region| >= 9 && region <= "function f(){}"
    ensures LastOfEither(region, "function ", "function ", 0)
  {
    hide IndexFrom;
    var f := "function ";
    assert region[0..9] == f;
    forall i | i > 0 ensures !OccursAt(region, f, i) {
      OccursLetter(region, f, i, 0);
      OccursLetter(region, f, i, 1);
    }
  }
}
