/** Round-robin assignment of OAuth tokens with session affinity. */
module TokenPool {
  import opened Text
  import Framing

  // ----- Reading the token list -----

  /** The text cut at its commas: one more piece than there are commas. */
  function Pieces(s: string): (r: seq<string>)
    ensures |r| >= 1
  {
    if s == "" then [""]
    else
      var front, c := Pieces(s[..|s| - 1]), s[|s| - 1];
      if c == ',' then front + [""] else front[..|front| - 1] + [front[|front| - 1] + [c]]
  }

  function TrimLeft(s: string): string {
    if s != "" && Framing.IsSpace(s[0]) then TrimLeft(s[1..]) else s
  }

  function TrimRight(s: string): string {
    if s != "" && Framing.IsSpace(s[|s| - 1]) then TrimRight(s[..|s| - 1]) else s
  }

  function Cleaned(pieces: seq<string>): seq<string> {
    if pieces == [] then []
    else
      var t := TrimRight(TrimLeft(pieces[|pieces| - 1]));
      Cleaned(pieces[..|pieces| - 1]) + (if t == "" then [] else [t])
  }

  function ParseTokens(s: string): seq<string> {
    Cleaned(Pieces(s))
  }

  /** A token that the list can carry: not empty, no comma, no white space at its ends. */
  predicate Carried(t: string) {
    t != "" && ',' !in t && !Framing.IsSpace(t[0]) && !Framing.IsSpace(t[|t| - 1])
  }

  /** Tokens written one after another with commas between them. */
  function Written(tokens: seq<string>): string {
    if tokens == [] then ""
    else if |tokens| == 1 then tokens[0]
    else Written(tokens[..|tokens| - 1]) + "," + tokens[|tokens| - 1]
  }

  lemma {:induction false} PiecesAppend(s: string, t: string)
    requires ',' !in t
    ensures var p := Pieces(s); Pieces(s + t) == p[..|p| - 1] + [p[|p| - 1] + t]
  {
    hide Pieces;
    var p := Pieces(s);
    if t == "" {
      assert s + t == s && p[|p| - 1] + t == p[|p| - 1];
    } else {
      var front, c := t[..|t| - 1], t[|t| - 1];
      PiecesAppend(s, front);
      assert s + t == s + front + [c] && t == front + [c];
      PiecesMore(s + front, c);
      assert (p[|p| - 1] + front) + [c] == p[|p| - 1] + t;
    }
  }

  lemma PiecesMore(s: string, c: char)
    requires c != ','
    ensures var p := Pieces(s); Pieces(s + [c]) == p[..|p| - 1] + [p[|p| - 1] + [c]]
  {
    assert (s + [c])[..|s|] == s;
  }

  lemma PiecesBasics(s: string)
    ensures Pieces("") == [""]
    ensures Pieces(s + ",") == Pieces(s) + [""]
  {
    assert (s + ",")[..|s|] == s;
  }

  lemma {:induction false} PiecesOfWritten(tokens: seq<string>)
    requires tokens != [] && forall t :: t in tokens ==> ',' !in t
    ensures Pieces(Written(tokens)) == tokens
  {
    hide Pieces;
    var front, t := tokens[..|tokens| - 1], tokens[|tokens| - 1];
    assert t in tokens && "" + t == t;
    if front == [] {
      PiecesBasics("");
      PiecesAppend("", t);
    } else {
      PiecesOfWritten(front);
      PiecesBasics(Written(front));
      PiecesAppend(Written(front) + ",", t);
      assert (front + [""])[..|front|] == front;
    }
  }

  /** What is trimmed at one end, and where it stops. */
  lemma {:induction false} TrimLeftBlank(a: string, t: string)
    requires Framing.Blank(a) && t != "" && !Framing.IsSpace(t[0])
    ensures TrimLeft(a + t) == t
  {
    hide Framing.IsSpace;
    if a == "" {
      assert a + t == t;
    } else {
      assert (a + t)[1..] == a[1..] + t;
      TrimLeftBlank(a[1..], t);
    }
  }

  lemma {:induction false} TrimRightBlank(t: string, b: string)
    requires Framing.Blank(b) && t != "" && !Framing.IsSpace(t[|t| - 1])
    ensures TrimRight(t + b) == t
  {
    hide Framing.IsSpace;
    if b == "" {
      assert t + b == t;
    } else {
      assert (t + b)[..|t + b| - 1] == t + b[..|b| - 1];
      TrimRightBlank(t, b[..|b| - 1]);
    }
  }

  /** A token with white space around it. */
  ghost predicate Padded(piece: string, token: string) {
    exists a, b :: Framing.Blank(a) && Framing.Blank(b) && piece == a + token + b
  }

  lemma PaddedTrims(piece: string, token: string)
    requires Padded(piece, token) && Carried(token)
    ensures TrimRight(TrimLeft(piece)) == token && ',' !in piece
  {
    var a, b :| Framing.Blank(a) && Framing.Blank(b) && piece == a + token + b;
    assert !Framing.IsSpace(',');
    hide Framing.IsSpace, TrimLeft, TrimRight;
    assert a + token + b == a + (token + b);
    TrimLeftBlank(a, token + b);
    TrimRightBlank(token, b);
  }

  lemma {:induction false} CleanedPadded(pieces: seq<string>, tokens: seq<string>)
    requires |pieces| == |tokens|
    requires forall i :: 0 <= i < |tokens| ==> Padded(pieces[i], tokens[i]) && Carried(tokens[i])
    ensures Cleaned(pieces) == tokens
  {
    hide TrimLeft, TrimRight, Padded, Carried;
    if tokens != [] {
      var n := |tokens| - 1;
      CleanedPadded(pieces[..n], tokens[..n]);
      PaddedTrims(pieces[n], tokens[n]);
      CarriedSome(tokens[n]);
      assert tokens == tokens[..n] + [tokens[n]];
    }
  }

  lemma CarriedSome(t: string)
    requires Carried(t)
    ensures t != ""
  {
  }

  /** White space around the tokens of a list does not matter. */
  lemma ParsePadded(pieces: seq<string>, tokens: seq<string>)
    requires |pieces| == |tokens| && tokens != []
    requires forall i :: 0 <= i < |tokens| ==> Padded(pieces[i], tokens[i]) && Carried(tokens[i])
    ensures ParseTokens(Written(pieces)) == tokens
  {
    hide Padded, Carried, Pieces, Cleaned, Written;
    forall p | p in pieces ensures ',' !in p {
      var i :| 0 <= i < |pieces| && pieces[i] == p;
      PaddedTrims(p, tokens[i]);
    }
    PiecesOfWritten(pieces);
    CleanedPadded(pieces, tokens);
  }

  /** Any list of such tokens is read back as it was written. */
  lemma ParseWritten(tokens: seq<string>)
    requires forall t :: t in tokens ==> Carried(t)
    ensures ParseTokens(Written(tokens)) == tokens
  {
    hide Framing.IsSpace, Carried;
    if tokens == [] {
      assert [""][..0] == [] && TrimRight(TrimLeft("")) == "";
    } else {
      forall t ensures Padded(t, t) { NotPadded(t); }
      ParsePadded(tokens, tokens);
    }
  }

  lemma NotPadded(t: string)
    ensures Padded(t, t)
  {
    assert Framing.Blank("") && t == "" + t + "";
  }

  lemma {:induction false} TrimLeftEnds(s: string)
    ensures var t := TrimLeft(s);
      (t != "" ==> !Framing.IsSpace(t[0])) && |t| <= |s| && t == s[|s| - |t|..]
  {
    hide Framing.IsSpace;
    if s != "" && Framing.IsSpace(s[0]) { TrimLeftEnds(s[1..]); }
  }

  lemma {:induction false} TrimRightEnds(s: string)
    ensures var t := TrimRight(s);
      (t != "" ==> !Framing.IsSpace(t[|t| - 1])) && |t| <= |s| && t == s[..|t|]
  {
    hide Framing.IsSpace;
    if s != "" && Framing.IsSpace(s[|s| - 1]) { TrimRightEnds(s[..|s| - 1]); }
  }

  lemma {:induction false} PiecesNoComma(s: string)
    ensures forall p :: p in Pieces(s) ==> ',' !in p
  {
    if s != "" {
      var front := Pieces(s[..|s| - 1]);
      PiecesNoComma(s[..|s| - 1]);
      forall p | p in Pieces(s) ensures ',' !in p {
        var i :| 0 <= i < |Pieces(s)| && Pieces(s)[i] == p;
        assert front[|front| - 1] in front;
        assert i < |front| - 1 ==> p in front;
      }
    }
  }

  lemma {:induction false} CleanedAreCarried(pieces: seq<string>)
    requires forall p :: p in pieces ==> ',' !in p
    ensures forall t :: t in Cleaned(pieces) ==> Carried(t)
  {
    hide Framing.IsSpace, TrimLeft, TrimRight;
    if pieces != [] {
      var p := pieces[|pieces| - 1];
      assert p in pieces;
      CleanedAreCarried(pieces[..|pieces| - 1]);
      TrimLeftEnds(p);
      TrimRightEnds(TrimLeft(p));
      var t := TrimRight(TrimLeft(p));
      assert t != "" ==> t[0] == TrimLeft(p)[0];
      assert forall c :: c in t ==> c in TrimLeft(p);
      assert forall c :: c in TrimLeft(p) ==> c in p;
    }
  }

  /** Whatever the text, its tokens are non-empty, without comma, and without white space at either end. */
  lemma ParsedAreCarried(s: string)
    ensures forall t :: t in ParseTokens(s) ==>
              t != "" && ',' !in t && !Framing.IsSpace(t[0]) && !Framing.IsSpace(t[|t| - 1])
  {
    PiecesNoComma(s);
    CleanedAreCarried(Pieces(s));
  }

  // ----- Round robin -----

  function Following(n: nat, i: nat): (j: nat)
    requires i < n
    ensures j < n
  {
    (i + 1) % n
  }

  /** The index of the k-th assignment when the first is `start`. */
  function Turn(n: nat, start: nat, k: nat): (i: nat)
    requires start < n
    ensures i < n
  {
    if k == 0 then start else Following(n, Turn(n, start, k - 1))
  }

  /** How many of the first `k` assignments go to token `i`. */
  function Share(n: nat, start: nat, k: nat, i: nat): nat
    requires start < n
  {
    if k == 0 then 0 else Share(n, start, k - 1, i) + (if Turn(n, start, k - 1) == i then 1 else 0)
  }

  /** The completed rounds of the first `k` assignments. */
  function Rounds(n: nat, start: nat, k: nat): nat
    requires start < n
  {
    if k == 0 then 0 else Rounds(n, start, k - 1) + (if Turn(n, start, k) == start then 1 else 0)
  }

  /** Whether a round that began at `start` and is about to serve `next` has served `i`. */
  predicate Served(start: nat, next: nat, i: nat) {
    if start <= next then start <= i < next else i >= start || i < next
  }

  /** Every token has had one assignment per completed round, and one more if the current round has served it. */
  lemma {:induction false} ShareExact(n: nat, start: nat, k: nat, i: nat)
    requires start < n && i < n
    ensures Share(n, start, k, i) == Rounds(n, start, k) + (if Served(start, Turn(n, start, k), i) then 1 else 0)
  {
    if k > 0 {
      ShareExact(n, start, k - 1, i);
      NextTurn(n, Turn(n, start, k - 1));
    }
  }

  lemma NextTurn(n: nat, i: nat)
    requires i < n
    ensures Following(n, i) == (i + 1) % n == if i + 1 == n then 0 else i + 1
  {
  }

  /** Round robin is fair at every moment. */
  lemma Fair(n: nat, start: nat, k: nat, i: nat, j: nat)
    requires start < n && i < n && j < n
    ensures -1 <= Share(n, start, k, i) - Share(n, start, k, j) <= 1
  {
    ShareExact(n, start, k, i);
    ShareExact(n, start, k, j);
  }

  // ----- Round robin across a restart -----

  /** What `k` assignments from `start` on, and `m` more after a restart at `restart`, give token `i`. */
  function Total(n: nat, start: nat, k: nat, restart: nat, m: nat, i: nat): nat
    requires start < n && restart < n
  {
    Share(n, start, k, i) + Share(n, restart, m, i)
  }

  /** After a restart, too, no token ever has two assignments more than another. */
  ghost predicate FairAcross(n: nat, start: nat, k: nat, restart: nat)
    requires start < n && restart < n
  {
    forall m: nat, i: nat, j: nat {:trigger Share(n, restart, m, i), Share(n, restart, m, j)} ::
      i < n && j < n ==> -1 <= Total(n, start, k, restart, m, i) - Total(n, start, k, restart, m, j) <= 1
  }

  /** One more assignment. */
  lemma OneMoreTurn(n: nat, start: nat, k: nat, i: nat)
    requires start < n
    ensures Turn(n, start, k + 1) == Following(n, Turn(n, start, k))
    ensures Share(n, start, k + 1, i) == Share(n, start, k, i) + (if Turn(n, start, k) == i then 1 else 0)
  {
  }

  /** A rotation that goes on where it stood is one rotation. */
  lemma {:induction false} ShareSplit(n: nat, start: nat, k: nat, m: nat, i: nat)
    requires start < n
    ensures Turn(n, start, k + m) == Turn(n, Turn(n, start, k), m)
    ensures Share(n, start, k + m, i) == Share(n, start, k, i) + Share(n, Turn(n, start, k), m, i)
  {
    if m > 0 {
      hide Turn, Share, Following;
      ShareSplit(n, start, k, m - 1, i);
      OneMoreTurn(n, start, k + m - 1, i);
      OneMoreTurn(n, Turn(n, start, k), m - 1, i);
    }
  }

  /** Within the first round the turns walk up from `start`, around the end. */
  lemma {:induction false} FirstRound(n: nat, start: nat, m: nat)
    requires start < n && m < n
    ensures Turn(n, start, m) == (if start + m < n then start + m else start + m - n) && Rounds(n, start, m) == 0
  {
    if m > 0 {
      FirstRound(n, start, m - 1);
      NextTurn(n, Turn(n, start, m - 1));
    }
  }

  /** From a token `r` on, the rotation serves `s` within one round, and has skipped what lies behind. */
  lemma ReachesInRound(n: nat, r: nat, s: nat, t: nat) returns (m: nat)
    requires r < n && s < n && t < n && t != s && !Served(r, s, t)
    ensures Share(n, r, m, s) == 1 && Share(n, r, m, t) == 0
  {
    var k := if r <= s then s - r else s + n - r;
    FirstRound(n, r, k);
    ShareExact(n, r, k, s);
    ShareExact(n, r, k, t);
    m := k + 1;
  }

  /**
   * A restart behind any other token than the one whose turn it is, in a round that has begun, gives
   * some token two assignments more than another.
   */
  lemma RestartUnfair(n: nat, start: nat, k: nat, restart: nat) returns (m: nat, i: nat)
    requires start < n && restart < n
    requires restart != Turn(n, start, k) && Turn(n, start, k) != start
    ensures i < n && Total(n, start, k, restart, m, i) - Total(n, start, k, restart, m, Turn(n, start, k)) == 2
  {
    var next := Turn(n, start, k);
    ShareExact(n, start, k, next);
    ShareExact(n, start, k, start);
    if Served(start, next, restart) {
      ShareExact(n, start, k, restart);
      m, i := 1, restart;
      assert Share(n, restart, 1, i) == 1 && Share(n, restart, 1, next) == 0 by {
        assert Turn(n, restart, 0) == restart;
        assert Share(n, restart, 0, i) == 0 && Share(n, restart, 0, next) == 0;
      }
    } else {
      m := ReachesInRound(n, restart, start, next);
      i := start;
    }
  }

  /**
   * `restore` goes on behind the highest index ever stored.  With the same tokens the shares before and
   * after it stay within one of each other, for ever, if and only if that is the token whose turn it was,
   * or the restart fell between two rounds.
   */
  lemma RestartFairExactly(n: nat, start: nat, k: nat, maxTokenIndex: nat)
    requires start < n
    ensures var restart := (maxTokenIndex + 1) % n;
            FairAcross(n, start, k, restart) <==> restart == Turn(n, start, k) || Turn(n, start, k) == start
  {
    var restart := (maxTokenIndex + 1) % n;
    if restart == Turn(n, start, k) || Turn(n, start, k) == start {
      forall m: nat, i: nat, j: nat | i < n && j < n
        ensures -1 <= Total(n, start, k, restart, m, i) - Total(n, start, k, restart, m, j) <= 1
      {
        RestartFair(n, start, k, restart, m, i, j);
      }
    } else {
      var m, i := RestartUnfair(n, start, k, restart);
      assert Total(n, start, k, restart, m, i) - Total(n, start, k, restart, m, Turn(n, start, k)) == 2;
    }
  }

  lemma RestartFair(n: nat, start: nat, k: nat, restart: nat, m: nat, i: nat, j: nat)
    requires start < n && restart < n && i < n && j < n
    requires restart == Turn(n, start, k) || Turn(n, start, k) == start
    ensures -1 <= Total(n, start, k, restart, m, i) - Total(n, start, k, restart, m, j) <= 1
  {
    if restart == Turn(n, start, k) {
      ShareSplit(n, start, k, m, i);
      ShareSplit(n, start, k, m, j);
      Fair(n, start, k + m, i, j);
    } else {
      ShareExact(n, start, k, i);
      ShareExact(n, start, k, j);
      Fair(n, restart, m, i, j);
    }
  }

  /** The highest index among the first `k` assignments, as a table that keeps every session reports it. */
  function Highest(n: nat, k: nat): nat
    requires n > 0 && k > 0
  {
    if k == 1 then Turn(n, 0, 0)
    else
      var h, t := Highest(n, k - 1), Turn(n, 0, k - 1);
      if t > h then t else h
  }

  lemma {:induction false} HighestIs(n: nat, k: nat)
    requires n > 0 && k > 0
    ensures Highest(n, k) == if k < n then k - 1 else n - 1
  {
    if k > 1 {
      HighestIs(n, k - 1);
      if k - 1 < n {
        FirstRound(n, 0, k - 1);
      }
    }
  }

  lemma {:induction false} TurnFromZero(n: nat, k: nat)
    requires n > 0
    ensures Turn(n, 0, k) == k % n
  {
    if k > 0 {
      TurnFromZero(n, k - 1);
      NextTurn(n, (k - 1) % n);
      NextRemainder(n, k - 1);
    }
  }

  lemma NextRemainder(n: nat, k: nat)
    requires n > 0
    ensures (k + 1) % n == if k % n + 1 == n then 0 else k % n + 1
  {
    var q, r := k / n, k % n;
    assert k + 1 == q * n + (r + 1);
    if r + 1 == n {
      assert k + 1 == (q + 1) * n;
      MultipleOf(n, q + 1, 0);
    } else {
      MultipleOf(n, q, r + 1);
    }
  }

  lemma MultipleOf(n: nat, q: nat, r: nat)
    requires r < n
    ensures (q * n + r) % n == r
  {
    var x := q * n + r;
    assert x == (x / n) * n + x % n;
    var d := x / n - q;
    assert d * n == r - x % n;
    AwayFromZero(n, d);
  }

  lemma AwayFromZero(n: nat, d: int)
    ensures d >= 1 ==> d * n >= n
    ensures d <= -1 ==> d * n <= 0 - n
  {
  }

  /**
   * From a fresh pool whose sessions are all still in the table, a restart after `k` assignments is fair
   * exactly when no second round has begun, or a round has just ended.
   */
  lemma RestartFromTable(n: nat, k: nat)
    requires n > 0 && k > 0
    ensures FairAcross(n, 0, k, (Highest(n, k) + 1) % n) <==> k <= n || k % n == 0
  {
    hide FairAcross;
    HighestIs(n, k);
    TurnFromZero(n, k);
    RestartFairExactly(n, 0, k, Highest(n, k));
    if k <= n {
      NextTurn(n, Highest(n, k));
    } else {
      NextTurn(n, n - 1);
    }
  }

  /**
   * Three tokens, four assignments and a restart: the highest index is the last one, so the rotation begins
   * again at the first token, and one more assignment gives that token three and the others one each.
   */
  lemma RestartExample(n: nat, k: nat)
    requires n == 3 && k == 4
    ensures Highest(n, k) == n - 1
    ensures forall i :: 0 <= i < n ==> Total(n, 0, k, 0, 1, i) == if i == 0 then 3 else 1
  {
    hide *;
    HighestIs(n, k);
    forall i | 0 <= i < n ensures Total(n, 0, k, 0, 1, i) == if i == 0 then 3 else 1 {
      FirstShares(n, i);
    }
  }

  lemma FirstShares(n: nat, i: nat)
    requires n == 3 && i < n
    ensures Total(n, 0, 4, 0, 1, i) == if i == 0 then 3 else 1
  {
    FirstRound(n, 0, 1);
    FirstRound(n, 0, 2);
    hide *;
    NoTurnYet(n, 0, i);
    OneMoreTurn(n, 0, 0, i);
    OneMoreTurn(n, 0, 1, i);
    OneMoreTurn(n, 0, 2, i);
    assert Turn(n, 0, 3) == 0 by { NextTurn(n, 2); }
    OneMoreTurn(n, 0, 3, i);
    TotalIs(n, 0, 4, 0, 1, i);
  }

  lemma TotalIs(n: nat, start: nat, k: nat, restart: nat, m: nat, i: nat)
    requires start < n && restart < n
    ensures Total(n, start, k, restart, m, i) == Share(n, start, k, i) + Share(n, restart, m, i)
  {
  }

  lemma NoTurnYet(n: nat, start: nat, i: nat)
    requires start < n
    ensures Turn(n, start, 0) == start && Share(n, start, 0, i) == 0
  {
  }

  // ----- A session keeps its token -----

  datatype Use = Assigns(sessionId: string) | Releases(sessionId: string)

  function Assignments(uses: seq<Use>): nat {
    if uses == [] then 0 else Assignments(uses[..|uses| - 1]) + (if uses[|uses| - 1].Assigns? then 1 else 0)
  }

  /** The tokens held after these uses of a fresh pool, as `assign` and `release` say. */
  function HeldAfter(n: nat, start: nat, uses: seq<Use>): map<string, nat>
    requires start < n
  {
    if uses == [] then map[]
    else
      var front, u := uses[..|uses| - 1], uses[|uses| - 1];
      var held := HeldAfter(n, start, front);
      if u.Assigns? then held[u.sessionId := Turn(n, start, Assignments(front))] else held - {u.sessionId}
  }

  lemma LastUse(n: nat, start: nat, front: seq<Use>, u: Use)
    requires start < n
    ensures var held := HeldAfter(n, start, front);
            HeldAfter(n, start, front + [u]) ==
            if u.Assigns? then held[u.sessionId := Turn(n, start, Assignments(front))] else held - {u.sessionId}
  {
    hide Turn, Assignments;
    assert (front + [u])[..|front|] == front;
  }

  /**
   * Whatever other sessions do after its assignment, a session holds the token whose turn it was then;
   * and none once it was released.
   */
  lemma {:induction false} KeepsItsToken(n: nat, start: nat, before: seq<Use>, u: Use, after: seq<Use>)
    requires start < n && forall v :: v in after ==> v.sessionId != u.sessionId
    ensures var held := HeldAfter(n, start, before + [u] + after);
            if u.Assigns? then
              u.sessionId in held && held[u.sessionId] == Turn(n, start, Assignments(before))
            else
              u.sessionId !in held
  {
    hide Turn, Assignments, HeldAfter;
    if after == [] {
      assert before + [u] + after == before + [u];
      LastUse(n, start, before, u);
    } else {
      var front, v := after[..|after| - 1], after[|after| - 1];
      assert before + [u] + after == before + [u] + front + [v];
      KeepsItsToken(n, start, before, u, front);
      LastUse(n, start, before + [u] + front, v);
    }
  }

  // ----- Counting holders -----

  function Holders(held: map<string, nat>, i: nat): set<string> {
    set s | s in held && held[s] == i
  }

  function Usage(held: map<string, nat>, n: nat): (r: seq<nat>)
    ensures |r| == n && forall i :: 0 <= i < n ==> r[i] == |Holders(held, i)|
  {
    seq(n, i => if i >= 0 then |Holders(held, i)| else 0)
  }

  function Sum(counts: seq<nat>): nat {
    if counts == [] then 0 else Sum(counts[..|counts| - 1]) + counts[|counts| - 1]
  }

  lemma {:induction false} SumOfUpdate(counts: seq<nat>, i: nat, x: nat)
    requires i < |counts|
    ensures Sum(counts[i := x]) + counts[i] == Sum(counts) + x
  {
    var n := |counts| - 1;
    var changed := counts[i := x];
    if i == n {
      assert changed[..n] == counts[..n];
    } else {
      SumOfUpdate(counts[..n], i, x);
      assert changed[..n] == counts[..n][i := x];
    }
  }

  lemma HoldersMore(held: map<string, nat>, s: string, t: nat, i: nat)
    requires s !in held
    ensures |Holders(held[s := t], i)| == |Holders(held, i)| + (if i == t then 1 else 0)
  {
    assert Holders(held[s := t], i) == Holders(held, i) + (if i == t then {s} else {});
  }

  lemma UsageMore(held: map<string, nat>, s: string, t: nat, n: nat)
    requires s !in held && t < n
    ensures Usage(held[s := t], n) == Usage(held, n)[t := Usage(held, n)[t] + 1]
  {
    forall i: nat | i < n ensures |Holders(held[s := t], i)| == |Holders(held, i)| + (if i == t then 1 else 0) {
      HoldersMore(held, s, t, i);
    }
  }

  lemma {:induction false} SumOfZeros(n: nat)
    ensures Sum(Repeat<nat>(0, n)) == 0
  {
    if n > 0 {
      SumOfZeros(n - 1);
      assert Repeat<nat>(0, n)[..n - 1] == Repeat<nat>(0, n - 1);
    }
  }

  lemma UsageOfNone(n: nat)
    ensures Usage(map[], n) == Repeat<nat>(0, n)
  {
    forall i: nat ensures Holders(map[], i) == {} {}
  }

  /** When every stored index is in range, the usage counts add up to the number of sessions that hold a token. */
  lemma {:induction false} UsageAddsUp(held: map<string, nat>, n: nat)
    requires forall s :: s in held ==> held[s] < n
    ensures Sum(Usage(held, n)) == |held|
    decreases |held|
  {
    if |held| == 0 {
      assert held == map[];
      UsageOfNone(n);
      SumOfZeros(n);
    } else {
      var s :| s in held;
      var t, rest := held[s], held - {s};
      assert held == rest[s := t];
      UsageAddsUp(rest, n);
      UsageMore(rest, s, t, n);
      var u := Usage(rest, n);
      SumOfUpdate(u, t, u[t] + 1);
    }
  }

  lemma CountNone(held: map<string, nat>, n: nat)
    ensures Usage(held - held.Keys, n) == Repeat<nat>(0, n)
  {
    assert held - held.Keys == map[];
    UsageOfNone(n);
  }

  lemma NothingLeft(held: map<string, nat>)
    ensures held - {} == held
  {
  }

  /** One more session is counted. */
  lemma CountOne(held: map<string, nat>, left: set<string>, s: string, n: nat)
    requires left <= held.Keys && s in left && held[s] < n
    ensures Usage(held - (left - {s}), n) == Usage(held - left, n)[held[s] := Usage(held - left, n)[held[s]] + 1]
  {
    assert held - (left - {s}) == (held - left)[s := held[s]];
    UsageMore(held - left, s, held[s], n);
  }

  // ----- The pool object -----

  datatype Stored = Stored(sessionId: string, tokenIndex: nat)

  /** The stored indices that still name a token, later entries winning. */
  function Restored(held: map<string, nat>, stored: seq<Stored>, n: nat): map<string, nat> {
    if stored == [] then held
    else
      var s, front := stored[|stored| - 1], Restored(held, stored[..|stored| - 1], n);
      if s.tokenIndex < n then front[s.sessionId := s.tokenIndex] else front
  }

  /** Row `k` is the last one for the session whose index is in range. */
  ghost predicate LastStored(stored: seq<Stored>, k: nat, session: string, n: nat) {
    && k < |stored| && stored[k].sessionId == session && stored[k].tokenIndex < n
    && forall j :: k < j < |stored| ==> stored[j].sessionId != session || stored[j].tokenIndex >= n
  }

  /** After a restore a session holds what its last row in range says, or without one what it held before. */
  lemma {:induction false} RestoredExactly(held: map<string, nat>, stored: seq<Stored>, n: nat, session: string)
    ensures var r := Restored(held, stored, n);
      && (forall k: nat :: LastStored(stored, k, session, n) ==> session in r && r[session] == stored[k].tokenIndex)
      && ((forall k: nat :: !LastStored(stored, k, session, n)) ==>
            (session in r <==> session in held) && (session in held ==> r[session] == held[session]))
  {
    hide LastStored;
    if stored == [] {
      NoneStored(stored, session, n);
    } else {
      var front := stored[..|stored| - 1];
      RestoredExactly(held, front, n, session);
      var last := stored[|stored| - 1];
      if last.sessionId == session && last.tokenIndex < n {
        LastStoredHere(stored, session, n);
      } else {
        forall k: nat
          ensures LastStored(stored, k, session, n) == LastStored(front, k, session, n)
          ensures LastStored(front, k, session, n) ==> k < |front| && front[k] == stored[k]
        {
          LastStoredBefore(stored, session, n, k);
        }
      }
    }
  }

  lemma NoneStored(stored: seq<Stored>, session: string, n: nat)
    requires stored == []
    ensures forall k: nat :: !LastStored(stored, k, session, n)
  {
  }

  lemma LastStoredHere(stored: seq<Stored>, session: string, n: nat)
    requires stored != [] && stored[|stored| - 1].sessionId == session && stored[|stored| - 1].tokenIndex < n
    ensures LastStored(stored, |stored| - 1, session, n)
    ensures forall k: nat :: LastStored(stored, k, session, n) ==> k == |stored| - 1
  {
  }

  lemma LastStoredBefore(stored: seq<Stored>, session: string, n: nat, k: nat)
    requires stored != [] && !(stored[|stored| - 1].sessionId == session && stored[|stored| - 1].tokenIndex < n)
    ensures var front := stored[..|stored| - 1];
            && (LastStored(stored, k, session, n) <==> LastStored(front, k, session, n))
            && (LastStored(front, k, session, n) ==> k < |front| && front[k] == stored[k])
  {
  }

  class TokenPool {
    const tokens: seq<string>
    var nextIndex: nat
    var sessionTokens: map<string, nat>
    /** Where the rotation began, at construction or at the last restore, and how often it has moved since. */
    ghost var start: nat
    ghost var turns: nat

    ghost predicate Valid()
      reads this
    {
      && start < |tokens|
      && nextIndex == Turn(|tokens|, start, turns)
      && (forall s :: s in sessionTokens ==> sessionTokens[s] < |tokens|)
    }

    /** The source throws when no token is left; `TokenPool.Create` reports that. */
    constructor (tokens: seq<string>)
      requires tokens != []
      ensures Valid() && this.tokens == tokens && sessionTokens == map[] && start == 0 && turns == 0
    {
      this.tokens := tokens;
      nextIndex, sessionTokens, start, turns := 0, map[], 0, 0;
    }

    static method Create(tokenString: string) returns (pool: Option<TokenPool>)
      ensures pool.None? <==> ParseTokens(tokenString) == []
      ensures pool.Some? ==> fresh(pool.value) && pool.value.Valid() && pool.value.tokens == ParseTokens(tokenString)
    {
      var tokens := ParseTokens(tokenString);
      if tokens == [] {
        return None;
      }
      var p := new TokenPool(tokens);
      pool := Some(p);
    }

    method Restore(stored: seq<Stored>, maxTokenIndex: Option<nat>)
      requires Valid()
      modifies this
      ensures Valid() && sessionTokens == Restored(old(sessionTokens), stored, |tokens|)
      ensures maxTokenIndex.Some? ==> turns == 0 && start == (maxTokenIndex.value + 1) % |tokens|
      ensures maxTokenIndex.None? ==> turns == old(turns) && start == old(start)
      ensures maxTokenIndex.Some? ==>
                (FairAcross(|tokens|, old(start), old(turns), start) <==>
                   nextIndex == old(nextIndex) || old(nextIndex) == old(start))
    {
      hide FairAcross;
      for i := 0 to |stored|
        invariant sessionTokens == Restored(old(sessionTokens), stored[..i], |tokens|)
        invariant forall s :: s in sessionTokens ==> sessionTokens[s] < |tokens|
        invariant nextIndex == old(nextIndex) && start == old(start) && turns == old(turns)
      {
        assert stored[..i + 1][..i] == stored[..i];
        if stored[i].tokenIndex < |tokens| {
          sessionTokens := sessionTokens[stored[i].sessionId := stored[i].tokenIndex];
        }
      }
      assert stored[..|stored|] == stored;
      if maxTokenIndex.Some? {
        RestartFairExactly(|tokens|, start, turns, maxTokenIndex.value);
        nextIndex := (maxTokenIndex.value + 1) % |tokens|;
        start, turns := nextIndex, 0;
      }
    }

    /** The next token in rotation, which the session then keeps. */
    method Assign(sessionId: string) returns (token: string, tokenIndex: nat)
      requires Valid()
      modifies this
      ensures Valid() && start == old(start) && turns == old(turns) + 1
      ensures tokenIndex == Turn(|tokens|, start, old(turns)) && token == tokens[tokenIndex]
      ensures sessionTokens == old(sessionTokens)[sessionId := tokenIndex]
    {
      tokenIndex := nextIndex;
      token := tokens[tokenIndex];
      nextIndex := (nextIndex + 1) % |tokens|;
      sessionTokens := sessionTokens[sessionId := tokenIndex];
      turns := turns + 1;
    }

    method Get(sessionId: string) returns (token: Option<string>)
      requires Valid()
      ensures token == if sessionId in sessionTokens then Some(tokens[sessionTokens[sessionId]]) else None
    {
      token := if sessionId in sessionTokens then Some(tokens[sessionTokens[sessionId]]) else None;
    }

    method Release(sessionId: string)
      requires Valid()
      modifies this`sessionTokens
      ensures Valid() && sessionTokens == old(sessionTokens) - {sessionId}
    {
      sessionTokens := sessionTokens - {sessionId};
    }

    method CountUsage() returns (counts: seq<nat>)
      requires Valid()
      ensures counts == Usage(sessionTokens, |tokens|) && Sum(counts) == |sessionTokens|
    {
      counts := CountHeld(sessionTokens, |tokens|);
    }
  }

  /** `usage`: one pass over the held indices. */
  method CountHeld(held: map<string, nat>, n: nat) returns (counts: seq<nat>)
    requires forall s :: s in held ==> held[s] < n
    ensures counts == Usage(held, n) && Sum(counts) == |held|
  {
    hide *;
    UsageAddsUp(held, n);
    CountNone(held, n);
    counts := Repeat<nat>(0, n);
    var left := held.Keys;
    while left != {}
      invariant left <= held.Keys
      invariant counts == Usage(held - left, n)
      decreases |left|
    {
      var s :| s in left;
      CountOne(held, left, s, n);
      counts := counts[held[s] := counts[held[s]] + 1];
      left := left - {s};
    }
    NothingLeft(held);
  }
}
