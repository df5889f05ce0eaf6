/** What an upstream encodes is what the decoder yields. */
module SseRoundTrip {
  import opened Prelude
  import opened Text
  import opened SseFraming
  import opened SseStream

  datatype Framing = Lf | Crlf

  /** An event as upstreams send it: one payload, or a keep-alive comment. */
  datatype Sent =
    | Data(payload: string, framing: Framing)
    | Comment(text: string, framing: Framing)

  function Delimiter(framing: Framing): string {
    if framing.Lf? then LF else CRLF
  }

  function Line(e: Sent): string {
    match e
    case Data(payload, _) => FIELD + " " + payload
    case Comment(text, _) => ":" + text
  }

  function Encode(e: Sent): string {
    Line(e) + Delimiter(e.framing)
  }

  function EncodeAll(events: seq<Sent>): string {
    FlatMap(Encode, events)
  }

  function SentPayload(e: Sent): seq<string> {
    if e.Data? then [e.payload] else []
  }

  predicate OneLine(s: string) {
    '\n' !in s
  }

  predicate OneLineEvent(e: Sent) {
    OneLine(if e.Data? then e.payload else e.text)
  }

  /** The payloads that survive the trip. */
  predicate Encodable(p: string) {
    OneLine(p) && p != "" && !IsWhitespace(p[|p| - 1]) && p != DONE
  }

  // ---- Framing ----

  lemma NoEarlyDelimiter(line: string, framing: Framing, more: string, b: Boundary)
    requires OneLine(line) && Delimits(line + Delimiter(framing) + more, b)
    ensures |line| <= b.start
  {
    var s := line + Delimiter(framing) + more;
    DelimiterLetters(s, b);
    assert forall i :: 0 <= i < |line| ==> s[i] == line[i];
    assert s[|line|] == Delimiter(framing)[0] && s[|line| + 1] == Delimiter(framing)[1];
  }

  lemma BoundaryOfLine(line: string, framing: Framing, more: string)
    requires OneLine(line)
    ensures FindSseBoundary(line + Delimiter(framing) + more) == Some(Boundary(|line|, |Delimiter(framing)|))
  {
    var s, b := line + Delimiter(framing) + more, Boundary(|line|, |Delimiter(framing)|);
    assert s[b.start..b.start + b.length] == Delimiter(framing);
    assert Delimits(s, b);
    BoundaryIsEarliest(s, b);
    var found := FindSseBoundary(s).value;
    NoEarlyDelimiter(line, framing, more, found);
    DelimiterLetters(s, found);
    DelimiterLetters(s, b);
  }

  lemma DrainEncoded(e: Sent, more: string)
    requires OneLine(Line(e))
    ensures Drain(Encode(e) + more) == Drained(EventPayloads(Line(e)) + Drain(more).payloads, Drain(more).rest)
  {
    var s := Encode(e) + more;
    BoundaryOfLine(Line(e), e.framing, more);
    assert s[..|Line(e)|] == Line(e);
    assert s[|Line(e)| + |Delimiter(e.framing)|..] == more;
  }

  // ---- One line ----

  lemma LinesOfOneLine(s: string)
    requires OneLine(s) && s != ""
    ensures Lines(s) == [s]
  {
    FindFromSpec(s, "\n", 0);
    forall k | 0 <= k < |s|
      ensures !Occurs(s, "\n", k)
    {
      assert s[k..k + 1] == [s[k]];
    }
  }

  lemma {:induction false} TrimEndAppend(a: string, b: string)
    requires a != "" && !IsWhitespace(a[|a| - 1])
    ensures TrimEnd(a + b) == a + TrimEnd(b)
    decreases |b|
  {
    if b == "" {
      assert a + b == a;
    } else if IsWhitespace(b[|b| - 1]) {
      assert (a + b)[..|a + b| - 1] == a + b[..|b| - 1];
      TrimEndAppend(a, b[..|b| - 1]);
    }
  }

  lemma TrimFrom(a: string, b: string)
    requires a != "" && !IsWhitespace(a[0]) && !IsWhitespace(a[|a| - 1])
    ensures Trim(a + b) == a + TrimEnd(b)
  {
    assert (a + b)[0] == a[0];
    TrimEndAppend(a, b);
  }

  /** What the decoder makes of a one-line payload. */
  function Received(p: string): seq<string> {
    var q := TrimEnd(p);
    if Blank(q) || q == DONE then [] else [q]
  }

  lemma DataLine(p: string, framing: Framing)
    requires OneLine(p)
    ensures EventPayloads(Line(Data(p, framing))) == Received(p)
  {
    var raw := FIELD + TrimEnd(" " + p);
    TrimmedDataLine(p, framing);
    LinesOfOneLine(raw);
    FlatMapOne(LinePayload, raw);
    TailOf(p);
  }

  lemma TrimmedDataLine(p: string, framing: Framing)
    requires OneLine(p)
    ensures Trim(Line(Data(p, framing))) == FIELD + TrimEnd(" " + p)
    ensures OneLine(FIELD + TrimEnd(" " + p))
  {
    Associative(FIELD, " ", p);
    TrimFrom(FIELD, " " + p);
    var tail := TrimEnd(" " + p);
    TrimEndSpec(" " + p);
    assert forall i :: 0 <= i < |tail| ==> tail[i] == (" " + p)[i];
  }

  /** The padding space and the payload's own trailing whitespace. */
  lemma TailOf(p: string)
    ensures LinePayload(FIELD + TrimEnd(" " + p)) == Received(p)
  {
    var q, tail := TrimEnd(p), TrimEnd(" " + p);
    assert (FIELD + tail)[|FIELD|..] == tail;
    TrimEndSpec(p);
    if q == "" {
      assert forall i :: 0 <= i < |p| ==> IsWhitespace(p[i]);
      assert forall i :: 0 <= i < |" " + p| ==> IsWhitespace((" " + p)[i]);
      TrimEndSpec(" " + p);
      assert Blank("");
    } else {
      PaddedTrim(p);
      assert tail == " " + q;
      assert Unpadded(tail) == q;
    }
  }

  lemma {:induction false} PaddedTrim(p: string)
    requires TrimEnd(p) != ""
    ensures TrimEnd(" " + p) == " " + TrimEnd(p)
    decreases |p|
  {
    if IsWhitespace(p[|p| - 1]) {
      assert (" " + p)[..|" " + p| - 1] == " " + p[..|p| - 1];
      PaddedTrim(p[..|p| - 1]);
    }
  }

  lemma CommentLine(text: string, framing: Framing)
    requires OneLine(text)
    ensures EventPayloads(Line(Comment(text, framing))) == []
  {
    var tail := TrimEnd(text);
    TrimEndSpec(text);
    TrimFrom(":", text);
    assert OneLine(":" + tail) by {
      assert forall i :: 0 <= i < |tail| ==> tail[i] == text[i];
    }
    LinesOfOneLine(":" + tail);
    FlatMapOne(LinePayload, ":" + tail);
    CommentCarriesNothing(":" + tail);
  }

  lemma CommentCarriesNothing(line: string)
    requires line != "" && line[0] == ':'
    ensures LinePayload(line) == []
  {
    assert FIELD[0] == 'd';
  }

  function ReceivedFrom(e: Sent): seq<string> {
    if e.Data? then Received(e.payload) else []
  }

  lemma {:induction false} DrainEncodeAll(events: seq<Sent>)
    requires forall i :: 0 <= i < |events| ==> OneLineEvent(events[i])
    ensures Drain(EncodeAll(events)) == Drained(FlatMap(ReceivedFrom, events), "")
    decreases |events|
  {
    if events == [] {
      assert FindSseBoundary("").None?;
    } else {
      var e := events[0];
      DrainEncodeAll(events[1..]);
      assert OneLineEvent(e);
      assert OneLine(Line(e));
      DrainEncoded(e, EncodeAll(events[1..]));
      if e.Data? {
        DataLine(e.payload, e.framing);
      } else {
        CommentLine(e.text, e.framing);
      }
    }
  }

  // ---- The decoder never yields a line feed ----

  lemma {:induction false} LinesHaveNoFeed(raw: string, i: nat)
    requires i < |Lines(raw)|
    ensures OneLine(Lines(raw)[i])
    decreases |raw|
  {
    FindFromSpec(raw, "\n", 0);
    match FindFrom(raw, "\n", 0)
    case None =>
      forall k | 0 <= k < |raw| ensures raw[k] != '\n' {
        assert !Occurs(raw, "\n", k);
        assert raw[k..k + 1] == [raw[k]];
      }
    case Some(n) =>
      if i == 0 {
        forall k | 0 <= k < n ensures raw[k] != '\n' {
          assert !Occurs(raw, "\n", k);
          assert raw[k..k + 1] == [raw[k]];
        }
      } else {
        LinesHaveNoFeed(raw[n + 1..], i - 1);
      }
  }

  lemma {:induction false} FlatMapMember<A, B>(f: A -> seq<B>, xs: seq<A>, y: B)
    requires y in FlatMap(f, xs)
    ensures exists i :: 0 <= i < |xs| && y in f(xs[i])
    decreases |xs|
  {
    if y in f(xs[0]) {
    } else {
      FlatMapMember(f, xs[1..], y);
      var i :| 0 <= i < |xs[1..]| && y in f(xs[1..][i]);
      assert y in f(xs[i + 1]);
    }
  }

  lemma EventPayloadsAreOneLine(raw: string, p: string)
    requires p in EventPayloads(raw)
    ensures OneLine(p)
  {
    var lines := Lines(Trim(raw));
    FlatMapMember(LinePayload, lines, p);
    var i :| 0 <= i < |lines| && p in LinePayload(lines[i]);
    LinesHaveNoFeed(Trim(raw), i);
    var data := lines[i][|FIELD|..];
    assert OneLine(data);
  }

  lemma {:induction false} DrainedAreOneLine(s: string, p: string)
    requires p in Drain(s).payloads
    ensures OneLine(p)
    decreases |s|
  {
    var b := FindSseBoundary(s).value;
    DrainStep([], s, b);
    assert p in EventPayloads(s[..b.start]) || p in Drain(s[b.start + b.length..]).payloads;
    if p in EventPayloads(s[..b.start]) {
      EventPayloadsAreOneLine(s[..b.start], p);
    } else {
      DrainedAreOneLine(s[b.start + b.length..], p);
    }
  }

  // ---- The round trip ----

  lemma ReceivedExactly(p: string)
    requires OneLine(p)
    ensures Received(p) == [p] <==> Encodable(p)
  {
    TrimEndSpec(p);
    BlankIff(p);
  }

  lemma {:induction false} AllReceived(events: seq<Sent>)
    requires forall i :: 0 <= i < |events| && events[i].Data? ==> Encodable(events[i].payload)
    ensures FlatMap(ReceivedFrom, events) == FlatMap(SentPayload, events)
    decreases |events|
  {
    if events != [] {
      AllReceived(events[1..]);
      if events[0].Data? {
        ReceivedExactly(events[0].payload);
      }
    }
  }

  lemma {:induction false} ReceivedNoMore(events: seq<Sent>)
    ensures |FlatMap(ReceivedFrom, events)| <= |FlatMap(SentPayload, events)|
    decreases |events|
  {
    if events != [] {
      ReceivedNoMore(events[1..]);
    }
  }

  lemma {:induction false} OnlyEncodable(events: seq<Sent>, i: nat)
    requires i < |events| && events[i].Data?
    requires forall k :: 0 <= k < |events| ==> OneLineEvent(events[k])
    requires FlatMap(ReceivedFrom, events) == FlatMap(SentPayload, events)
    ensures Encodable(events[i].payload)
    decreases |events|
  {
    var e, rest := events[0], events[1..];
    ReceivedNoMore(rest);
    var received, sent := FlatMap(ReceivedFrom, rest), FlatMap(SentPayload, rest);
    assert ReceivedFrom(e) + received == SentPayload(e) + sent;
    assert |ReceivedFrom(e)| == |SentPayload(e)|;
    assert ReceivedFrom(e) == (ReceivedFrom(e) + received)[..|SentPayload(e)|] == SentPayload(e);
    assert received == (ReceivedFrom(e) + received)[|SentPayload(e)|..] == sent;
    if i == 0 {
      assert OneLineEvent(e);
      ReceivedExactly(e.payload);
    } else {
      OnlyEncodable(rest, i - 1);
    }
  }

  lemma {:induction false} SentMember(events: seq<Sent>, i: nat)
    requires i < |events| && events[i].Data?
    ensures events[i].payload in FlatMap(SentPayload, events)
    decreases |events|
  {
    if i == 0 {
      assert events[0].payload in SentPayload(events[0]);
    } else {
      SentMember(events[1..], i - 1);
    }
  }

  ghost predicate Decodes(events: seq<Sent>) {
    Drain(EncodeAll(events)).payloads == FlatMap(SentPayload, events)
  }

  /** A list of payloads, with any framing per event and comments between, decodes to
      itself exactly when every payload is a non-empty single line that neither ends in
      whitespace nor is the end-of-stream marker. */
  lemma RoundTripIff(events: seq<Sent>)
    requires forall i :: 0 <= i < |events| && events[i].Comment? ==> OneLine(events[i].text)
    ensures Decodes(events) <==> forall i :: 0 <= i < |events| && events[i].Data? ==> Encodable(events[i].payload)
  {
    if Decodes(events) {
      forall i | 0 <= i < |events|
        ensures OneLineEvent(events[i])
      {
        if events[i].Data? {
          SentMember(events, i);
          DrainedAreOneLine(EncodeAll(events), events[i].payload);
        }
      }
      DrainEncodeAll(events);
      forall i | 0 <= i < |events| && events[i].Data?
        ensures Encodable(events[i].payload)
      {
        OnlyEncodable(events, i);
      }
    } else if forall i :: 0 <= i < |events| && events[i].Data? ==> Encodable(events[i].payload) {
      DrainEncodeAll(events);
      AllReceived(events);
      assert false;
    }
  }

  /** End to end: an encoded list, cut anywhere by the transport, with errors between the
      pieces, is delivered payload for payload with nothing left over. */
  lemma DeliveredHoweverCut(events: seq<Sent>, arrivals: seq<Event>)
    requires forall i :: 0 <= i < |events| && events[i].Comment? ==> OneLine(events[i].text)
    requires forall i :: 0 <= i < |events| && events[i].Data? ==> Encodable(events[i].payload)
    requires Carried(arrivals) == EncodeAll(events) && WithinCap("", arrivals)
    ensures FlatMap(PayloadOf, Scan("", arrivals).items) == FlatMap(SentPayload, events)
    ensures FlatMap(FailureOf, Scan("", arrivals).items) == FlatMap(FailureIn, arrivals)
    ensures Scan("", arrivals).buf == ""
  {
    assert forall i :: 0 <= i < |events| ==> OneLineEvent(events[i]);
    assert FindSseBoundary("").None?;
    CutsDoNotMatter("", arrivals);
    assert "" + Carried(arrivals) == EncodeAll(events);
    DrainEncodeAll(events);
    AllReceived(events);
  }
}
