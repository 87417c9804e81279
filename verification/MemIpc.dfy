/** The client of the memory socket: requests are answered in the order they were sent. */
module MemIpc {
  import opened Framing

  datatype Outcome =
    | Answered(line: string)  // resolved with the line's value
    | Garbled(line: string)   // rejected: the line is not JSON
    | Dropped                 // rejected: error, close or disconnect

  datatype Settled = Settled(request: nat, outcome: Outcome)

  /** What a line settles a request with. */
  function Verdict(isJson: string -> bool, line: string): Outcome {
    if isJson(line) then Answered(line) else Garbled(line)
  }

  /** The requests of a list of settlements. */
  function Requests(s: seq<Settled>): (r: seq<nat>)
    ensures |r| == |s|
  {
    seq(|s|, i requires 0 <= i < |s| => s[i].request)
  }

  /** Settling requests with lines pairwise, oldest first; the surplus of either side is left over. */
  function Pair(isJson: string -> bool, requests: seq<nat>, lines: seq<string>): (s: seq<Settled>)
    ensures |s| == if |requests| < |lines| then |requests| else |lines|
  {
    seq(if |requests| < |lines| then |requests| else |lines|,
        i requires 0 <= i < |requests| && i < |lines| => Settled(requests[i], Verdict(isJson, lines[i])))
  }

  function AllDropped(requests: seq<nat>): (s: seq<Settled>)
    ensures |s| == |requests| && Requests(s) == requests && forall x :: x in s ==> x.outcome == Dropped
  {
    seq(|requests|, i requires 0 <= i < |requests| => Settled(requests[i], Dropped))
  }

  class MemIpcClient {
    const isJson: string -> bool
    var hasSocket: bool
    var connected: bool
    var buffer: string
    var pending: seq<nat>
    /** Every request sent, and every settlement, in order. */
    ghost var sent: seq<nat>
    ghost var settled: seq<Settled>

    /** The settled requests, then the pending ones, are the requests sent: nothing is lost, doubled or overtaken. */
    ghost predicate Valid()
      reads this
    {
      && Requests(settled) + pending == sent
      && (!connected ==> pending == [])
    }

    constructor (isJson: string -> bool)
      ensures Valid() && this.isJson == isJson && sent == [] && settled == [] && !
              connected && buffer == "" && !hasSocket
    {
      this.isJson := isJson;
      hasSocket, connected, buffer, pending := false, false, "", [];
      sent, settled := [], [];
    }

    /** A connection attempt succeeds. */
    method OnConnect()
      requires Valid()
      modifies this
      ensures Valid() && connected && hasSocket && buffer == ""
      ensures pending == old(pending) && sent == old(sent) && settled == old(settled)
    {
      hasSocket, connected, buffer := true, true, "";
    }

    method Send(request: nat) returns (accepted: bool)
      requires Valid()
      modifies this
      ensures Valid() && buffer == old(buffer) && connected == old(connected) &&
              hasSocket == old(hasSocket) && settled == old(settled)
      ensures accepted == (old(hasSocket) && old(connected))
      ensures pending == (if accepted then old(pending) + [request] else old(pending))
      ensures sent == (if accepted then old(sent) + [request] else old(sent))
    {
      if !hasSocket || !connected {
        return false;
      }
      pending := pending + [request];
      sent := sent + [request];
      accepted := true;
    }

    /** A chunk arrives: every complete, non-blank line settles the oldest pending request, if there is one. */
    method OnData(chunk: string)
      requires Valid()
      modifies this
      ensures Valid() && connected == old(connected) && hasSocket == old(hasSocket) && sent == old(sent)
      ensures buffer == Rest(old(buffer) + chunk)
      ensures settled == old(settled) + Pair(isJson, old(pending), Lines(old(buffer) + chunk))
      ensures pending == old(pending)[|Pair(isJson, old(pending), Lines(old(buffer) + chunk))|..]
    {
      hide Complete, Rest, NonBlank, Pair, Requests, Blank;
      buffer := buffer + chunk;
      var lines := Complete(buffer);
      buffer := Rest(buffer);
      NothingSettled(isJson, pending, lines);
      for i := 0 to |lines|
        modifies this`pending, this`settled
        invariant settled == old(settled) + Pair(isJson, old(pending), NonBlank(lines[..i]))
        invariant pending == old(pending)[|Pair(isJson, old(pending), NonBlank(lines[..i]))|..]
      {
        NonBlankNext(lines, i);
        if !Blank(lines[i]) {
          SettleNext(lines[i], old(pending), old(settled), NonBlank(lines[..i]));
        }
      }
      assert lines[..|lines|] == lines;
      PairKeeps(isJson, old(settled), old(pending), NonBlank(lines));
    }

    /** One line after the lines `done`, counted from when `waiting` were pending and `before` settled. */
    method SettleNext(line: string, ghost waiting: seq<nat>, ghost before: seq<Settled>, ghost done: seq<string>)
      requires settled == before + Pair(isJson, waiting, done) && pending == waiting[|Pair(isJson, waiting, done)|..]
      modifies this`pending, this`settled
      ensures settled == before + Pair(isJson, waiting, done + [line])
      ensures pending == waiting[|Pair(isJson, waiting, done + [line])|..]
    {
      PairMore(isJson, waiting, done, line);
      hide Pair;
      if pending != [] {
        var head := pending[0];
        pending := pending[1..];
        settled := settled + [Settled(head, Verdict(isJson, line))];
      }
    }

    /** An error or a close after connecting rejects everything that waits. */
    method OnLost()
      requires Valid()
      modifies this
      ensures Valid() && !connected && hasSocket == old(hasSocket) && buffer == old(buffer) && sent == old(sent)
      ensures pending == [] && settled == old(settled) + AllDropped(old(pending))
    {
      settled := settled + AllDropped(pending);
      pending := [];
      connected := false;
    }

    method Disconnect()
      requires Valid()
      modifies this
      ensures Valid() && !hasSocket && buffer == old(buffer) && sent == old(sent)
      ensures old(hasSocket) ==> !connected && pending == [] && settled == old(settled) + AllDropped(old(pending))
      ensures !old(hasSocket) ==> connected == old(connected) && pending == old(pending) && settled == old(settled)
    {
      if hasSocket {
        hasSocket, connected := false, false;
        settled := settled + AllDropped(pending);
        pending := [];
      }
    }
  }

  /** What the invariant means for one request: sent once, it is settled once or waits, and never both. */
  lemma SettledOrWaiting(settled: seq<Settled>, pending: seq<nat>, sent: seq<nat>, r: nat)
    requires Requests(settled) + pending == sent && multiset(sent)[r] == 1
    ensures multiset(Requests(settled))[r] + multiset(pending)[r] == 1
    ensures |settled| + |pending| == |sent|
  {
    assert multiset(sent) == multiset(Requests(settled)) + multiset(pending);
  }

  lemma PairMore(isJson: string -> bool, requests: seq<nat>, lines: seq<string>, line: string)
    ensures Pair(isJson, requests, lines + [line]) ==
            if |lines| < |requests| then
            Pair(isJson, requests, lines) + [Settled(requests[|lines|], Verdict(isJson, line))]
            else Pair(isJson, requests, lines)
  {
  }

  lemma PairCovers(isJson: string -> bool, requests: seq<nat>, lines: seq<string>)
    ensures var p := Pair(isJson, requests, lines); Requests(p) + requests[|p|..] == requests
  {
  }

  lemma PairKeeps(isJson: string -> bool, settled: seq<Settled>, requests: seq<nat>, lines: seq<string>)
    ensures var p := Pair(isJson, requests, lines);
            Requests(settled + p) + requests[|p|..] == Requests(settled) + requests
    ensures requests == [] ==> requests[|Pair(isJson, requests, lines)|..] == []
  {
    PairCovers(isJson, requests, lines);
    var p := Pair(isJson, requests, lines);
    assert Requests(settled + p) == Requests(settled) + Requests(p);
  }

  lemma NothingSettled(isJson: string -> bool, requests: seq<nat>, lines: seq<string>)
    ensures Pair(isJson, requests, NonBlank(lines[..0])) == []
  {
  }

  lemma NonBlankNext(lines: seq<string>, i: nat)
    requires i < |lines|
    ensures NonBlank(lines[..i + 1]) ==
            if Blank(lines[i]) then NonBlank(lines[..i]) else NonBlank(lines[..i]) + [lines[i]]
  {
    assert lines[..i + 1][..i] == lines[..i];
  }

  // ----- One connection, however its stream is cut -----

  datatype Event = Sent(request: nat) | Chunk(text: string)

  /** The part of the client that one connection works on. */
  datatype Link = Link(buffer: string, pending: seq<nat>, settled: seq<Settled>)

  function OnEvent(isJson: string -> bool, l: Link, e: Event): Link {
    match e
    case Sent(r) => l.(pending := l.pending + [r])
    case Chunk(text) =>
      var p := Pair(isJson, l.pending, Lines(l.buffer + text));
      Link(Rest(l.buffer + text), l.pending[|p|..], l.settled + p)
  }

  function Run(isJson: string -> bool, events: seq<Event>): Link {
    if events == [] then Link("", [], [])
    else OnEvent(isJson, Run(isJson, events[..|events| - 1]), events[|events| - 1])
  }

  function SentIn(events: seq<Event>): seq<nat> {
    if events == [] then []
    else SentIn(events[..|events| - 1]) + (match events[|events| - 1] case Sent(r) => [r] case Chunk(_) => [])
  }

  function StreamIn(events: seq<Event>): string {
    if events == [] then ""
    else StreamIn(events[..|events| - 1]) + (match events[|events| - 1] case Sent(_) => "" case Chunk(text) => text)
  }

  /** The lines of the stream that find a request waiting when they arrive; any other is dropped. */
  function Heard(events: seq<Event>): (h: seq<string>)
    ensures |h| <= |SentIn(events)|
  {
    if events == [] then []
    else
      var front := events[..|events| - 1];
      var h := Heard(front);
      match events[|events| - 1]
      case Sent(_) => h
      case Chunk(text) => h + FirstOf(Lines(Rest(StreamIn(front)) + text), |SentIn(front)| - |h|)
  }

  function FirstOf(lines: seq<string>, n: nat): (r: seq<string>)
    ensures |r| <= n && |r| <= |lines|
  {
    if n < |lines| then lines[..n] else lines
  }

  ghost predicate Paired(isJson: string -> bool, l: Link, sent: seq<nat>, stream: string, heard: seq<string>) {
    && l.buffer == Rest(stream)
    && |heard| <= |sent|
    && l.settled == Pair(isJson, sent, heard)
    && l.pending == sent[|heard|..]
  }

  /**
   * Pairing: on one connection, whatever the chunks and whenever the requests, the k-th line that finds a
   * request waiting settles the k-th request, and the other requests are still waiting, in order.
   */
  lemma {:induction false} Pairing(isJson: string -> bool, events: seq<Event>)
    ensures var l, sent, heard := Run(isJson, events), SentIn(events), Heard(events);
            && l.buffer == Rest(StreamIn(events))
            && l.settled == Pair(isJson, sent, heard)
            && l.pending == sent[|heard|..]
    ensures Paired(isJson, Run(isJson, events), SentIn(events), StreamIn(events), Heard(events))
  {
    hide Lines, Pair;
    if events == [] {
      PairNothing(isJson);
    } else {
      var front, e := events[..|events| - 1], events[|events| - 1];
      Pairing(isJson, front);
      match e {
        case Sent(r) =>
          assert StreamIn(events) == StreamIn(front);
          SentPairs(isJson, Run(isJson, front), SentIn(front), StreamIn(front), Heard(front), r);
        case Chunk(text) =>
          assert SentIn(events) == SentIn(front);
          ChunkPairs(isJson, Run(isJson, front), SentIn(front), StreamIn(front), Heard(front), text);
      }
    }
  }

  /** Whatever is settled is settled by its line: with the line's value if the line is JSON, and rejected if not. */
  lemma SettledByLine(isJson: string -> bool, events: seq<Event>, k: nat)
    requires k < |Run(isJson, events).settled|
    ensures k < |Heard(events)| <= |SentIn(events)|
    ensures var x, line := Run(isJson, events).settled[k], Heard(events)[k];
            && x.request == SentIn(events)[k]
            && (isJson(line) ==> x.outcome == Answered(line))
            && (!isJson(line) ==> x.outcome == Garbled(line))
  {
    hide Run, Heard, SentIn;
    Pairing(isJson, events);
  }

  lemma SentPairs(isJson: string -> bool, l: Link, sent: seq<nat>, stream: string, heard: seq<string>, r: nat)
    requires Paired(isJson, l, sent, stream, heard)
    ensures Paired(isJson, OnEvent(isJson, l, Sent(r)), sent + [r], stream, heard)
  {
    hide Rest;
    assert Pair(isJson, sent + [r], heard) == Pair(isJson, sent, heard);
  }

  lemma ChunkPairs(isJson: string -> bool, l: Link, sent: seq<nat>, stream: string, heard: seq<string>, text: string)
    requires Paired(isJson, l, sent, stream, heard)
    ensures Paired(isJson, OnEvent(isJson, l, Chunk(text)), sent, stream + text,
                   heard + FirstOf(Lines(Rest(stream) + text), |sent| - |heard|))
  {
    hide Rest, Lines;
    var more := FirstOf(Lines(l.buffer + text), |sent| - |heard|);
    SplitAnywhere(stream, text);
    assert Pair(isJson, l.pending, Lines(l.buffer + text)) == Pair(isJson, l.pending, more);
    PairSplits(isJson, sent, heard, more);
  }

  lemma PairNothing(isJson: string -> bool)
    ensures Paired(isJson, Link("", [], []), [], "", [])
  {
  }

  /** At no moment has the peer sent more non-blank lines than it had requests. */
  ghost predicate Solicited(events: seq<Event>) {
    forall i :: 0 <= i <= |events| ==> |Lines(StreamIn(events[..i]))| <= |SentIn(events[..i])|
  }

  /** The last event, for the requests, the stream and the lines that are heard. */
  lemma LastEvent(events: seq<Event>)
    requires events != []
    ensures var front, e := events[..|events| - 1], events[|events| - 1];
            && SentIn(events) == SentIn(front) + (if e.Sent? then [e.request] else [])
            && StreamIn(events) == StreamIn(front) + (if e.Chunk? then e.text else "")
            && Heard(events) == (if e.Sent? then Heard(front)
                 else Heard(front) + FirstOf(Lines(Rest(StreamIn(front)) + e.text), |SentIn(front)| - |Heard(front)|))
  {
    hide Lines, Rest, FirstOf;
  }

  /** A peer that answers only what it is asked is heard in full. */
  lemma {:induction false} SolicitedHeard(events: seq<Event>)
    requires Solicited(events)
    ensures Heard(events) == Lines(StreamIn(events))
  {
    hide Lines;
    if events == [] {
      assert Lines("") == [] by { NoLines(); }
    } else {
      var front, e := events[..|events| - 1], events[|events| - 1];
      assert events[..|events|] == events == front + [e];
      forall i | 0 <= i <= |front| ensures front[..i] == events[..i] {}
      SolicitedHeard(front);
      hide SentIn, StreamIn, Heard;
      LastEvent(events);
      if e.Chunk? {
        LinesAnywhere(StreamIn(front), e.text);
        assert |Lines(StreamIn(events))| <= |SentIn(events)|;
      } else {
        assert StreamIn(front) + "" == StreamIn(front);
      }
    }
  }

  lemma NoLines()
    ensures Lines("") == []
  {
  }

  /**
   * The k-th line of the stream settles the k-th request at every moment if and only if no line ever comes
   * unasked; after one that does, later lines settle earlier requests than their own.
   */
  lemma SolicitedExactly(isJson: string -> bool, events: seq<Event>)
    ensures Solicited(events) <==>
            forall i :: 0 <= i <= |events| ==>
              Run(isJson, events[..i]).settled == Pair(isJson, SentIn(events[..i]), Lines(StreamIn(events[..i])))
              && |Run(isJson, events[..i]).settled| == |Lines(StreamIn(events[..i]))|
  {
    hide Lines, Run, SentIn, StreamIn, Heard;
    forall i | 0 <= i <= |events|
      ensures var s := Run(isJson, events[..i]).settled;
              s == Pair(isJson, SentIn(events[..i]), Heard(events[..i])) && |s| <= |SentIn(events[..i])|
    {
      Pairing(isJson, events[..i]);
    }
    if Solicited(events) {
      forall i | 0 <= i <= |events| ensures Heard(events[..i]) == Lines(StreamIn(events[..i])) {
        forall j | 0 <= j <= i ensures events[..i][..j] == events[..j] {}
        SolicitedHeard(events[..i]);
      }
    }
  }

  lemma PairSplits(isJson: string -> bool, requests: seq<nat>, a: seq<string>, b: seq<string>)
    requires |a| + |b| <= |requests|
    ensures Pair(isJson, requests, a + b) == Pair(isJson, requests, a) + Pair(isJson, requests[|a|..], b)
    ensures requests[|a|..][|b|..] == requests[|a + b|..]
  {
  }
}
