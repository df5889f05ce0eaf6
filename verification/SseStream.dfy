/** The decoded stream does not depend on how the transport cuts the text. */
module SseStream {
  import opened Prelude
  import opened Text
  import opened SseFraming

  // ---- Appending text never moves the earliest boundary ----

  lemma DelimiterLetters(s: string, b: Boundary)
    requires Delimits(s, b)
    ensures b.start + b.length <= |s|
    ensures b.length == 2 ==> s[b.start] == '\n' && s[b.start + 1] == '\n'
    ensures b.length == 4 ==>
              s[b.start] == '\r' && s[b.start + 1] == '\n' && s[b.start + 2] == '\r' && s[b.start + 3] == '\n'
  {
    var t := s[b.start..b.start + b.length];
    assert forall k :: 0 <= k < b.length ==> t[k] == s[b.start + k];
    if b.length == 2 {
      assert t == LF && t[0] == '\n' && t[1] == '\n';
    } else {
      assert t == CRLF && t[0] == '\r' && t[1] == '\n' && t[2] == '\r' && t[3] == '\n';
    }
  }

  lemma DelimitsPrefix(a: string, more: string, b: Boundary)
    requires b.start + b.length <= |a|
    ensures Delimits(a, b) <==> Delimits(a + more, b)
  {
    assert (a + more)[b.start..b.start + b.length] == a[b.start..b.start + b.length];
  }

  lemma BoundaryStable(a: string, more: string)
    requires FindSseBoundary(a).Some?
    ensures FindSseBoundary(a + more) == FindSseBoundary(a)
  {
    var p := FindSseBoundary(a).value;
    BoundaryIsEarliest(a, p);
    DelimiterLetters(a, p);
    DelimitsPrefix(a, more, p);
    DelimiterLetters(a + more, p);
    BoundaryIsEarliest(a + more, p);
    var q := FindSseBoundary(a + more).value;
    DelimiterLetters(a + more, q);
    BoundaryIsEarliest(a, q);
    // An earlier delimiter would reach past `a`: a CRLF one starting just before an LF
    // one, whose second letter is not a carriage return.
    if q.start + q.length <= |a| {
      DelimitsPrefix(a, more, q);
    }
  }

  lemma FirstEventStays(a: string, more: string, b: Boundary)
    requires FindSseBoundary(a) == Some(b)
    ensures FindSseBoundary(a + more) == Some(b)
    ensures (a + more)[..b.start] == a[..b.start]
    ensures (a + more)[b.start + b.length..] == a[b.start + b.length..] + more
  {
    BoundaryStable(a, more);
  }

  lemma DrainHead(s: string, b: Boundary)
    requires FindSseBoundary(s) == Some(b)
    ensures var next := Drain(s[b.start + b.length..]);
            Drain(s) == Drained(EventPayloads(s[..b.start]) + next.payloads, next.rest)
  {
    var next, datas := Drain(s[b.start + b.length..]), EventPayloads(s[..b.start]);
    assert Drain(s) == Drained(datas + next.payloads, next.rest);
  }

  /** Draining in two instalments is draining once. */
  lemma {:induction false} DrainSplit(a: string, more: string)
    ensures var first := Drain(a);
            var second := Drain(first.rest + more);
            Drain(a + more) == Drained(first.payloads + second.payloads, second.rest)
    decreases |a|
  {
    match FindSseBoundary(a)
    case None =>
      assert Drain(a) == Drained([], a);
      assert [] + Drain(a + more).payloads == Drain(a + more).payloads;
    case Some(b) =>
      var tail := a[b.start + b.length..];
      FirstEventStays(a, more, b);
      DrainHead(a, b);
      DrainHead(a + more, b);
      DrainSplit(tail, more);
      Associative(EventPayloads(a[..b.start]), Drain(tail).payloads, Drain(Drain(tail).rest + more).payloads);
  }

  // ---- The scan over a whole stream ----

  function Scan(buf: string, events: seq<Event>): Scanned
    decreases |events|
  {
    if events == [] then Scanned([], buf) else
    var head := Step(buf, events[0]);
    var tail := Scan(head.buf, events[1..]);
    Scanned(head.items + tail.items, tail.buf)
  }

  function TextOf(event: Event): string {
    if event.Text? then event.data else ""
  }

  function FailureIn(event: Event): seq<string> {
    if event.Broken? then [event.reason] else []
  }

  /** The text a stream carries, wherever it was cut. */
  function Carried(events: seq<Event>): string {
    FlatMap(TextOf, events)
  }

  function PayloadOf(item: Item): seq<string> {
    if item.Payload? then [item.data] else []
  }

  function FailureOf(item: Item): seq<string> {
    if item.TransportError? then [item.reason] else []
  }

  /** No event leaves more than the cap undecoded. */
  predicate WithinCap(buf: string, events: seq<Event>)
    decreases |events|
  {
    events != [] ==>
      && !Trips(Drain(buf + TextOf(events[0])).rest)
      && WithinCap(Drain(buf + TextOf(events[0])).rest, events[1..])
  }

  lemma {:induction false} WrappedParts(payloads: seq<string>)
    ensures FlatMap(PayloadOf, Wrapped(payloads)) == payloads
    ensures FlatMap(FailureOf, Wrapped(payloads)) == []
    ensures Oversized !in Wrapped(payloads)
    decreases |payloads|
  {
    if payloads != [] {
      assert Wrapped(payloads)[1..] == Wrapped(payloads[1..]);
      WrappedParts(payloads[1..]);
    }
  }

  lemma ScanParts(buf: string, events: seq<Event>)
    requires events != []
    ensures var head := Step(buf, events[0]);
            var tail := Scan(head.buf, events[1..]);
            && Scan(buf, events) == Scanned(head.items + tail.items, tail.buf)
            && FlatMap(PayloadOf, Scan(buf, events).items)
               == FlatMap(PayloadOf, head.items) + FlatMap(PayloadOf, tail.items)
            && FlatMap(FailureOf, Scan(buf, events).items)
               == FlatMap(FailureOf, head.items) + FlatMap(FailureOf, tail.items)
  {
    var head := Step(buf, events[0]);
    var tail := Scan(head.buf, events[1..]);
    FlatMapAppend(PayloadOf, head.items, tail.items);
    FlatMapAppend(FailureOf, head.items, tail.items);
  }

  lemma DrainIdle(buf: string)
    requires FindSseBoundary(buf).None?
    ensures Drain(buf) == Drained([], buf)
  {
  }

  lemma QuietStep(s: string)
    requires !Trips(Drain(s).rest)
    ensures DrainedBuffer(s) == Drain(s).rest
    ensures FlatMap(PayloadOf, DrainedItems(s)) == Drain(s).payloads
    ensures FlatMap(FailureOf, DrainedItems(s)) == []
    ensures Oversized !in DrainedItems(s)
  {
    var payloads := Drain(s).payloads;
    WrappedParts(payloads);
    assert Wrapped(payloads) + [] == Wrapped(payloads);
  }

  lemma BrokenStep(buf: string, event: Event)
    requires FindSseBoundary(buf).None? && event.Broken?
    ensures Drain(buf + TextOf(event)) == Drained([], buf)
    ensures FlatMap(PayloadOf, Step(buf, event).items) == []
    ensures FlatMap(FailureOf, Step(buf, event).items) == FailureIn(event)
    ensures Oversized !in Step(buf, event).items
  {
    assert buf + TextOf(event) == buf;
    DrainIdle(buf);
    FlatMapOne(PayloadOf, TransportError(event.reason));
    FlatMapOne(FailureOf, TransportError(event.reason));
  }

  /** What one event contributes when it does not trip the cap. */
  lemma StepParts(buf: string, event: Event)
    requires FindSseBoundary(buf).None?
    requires !Trips(Drain(buf + TextOf(event)).rest)
    ensures Step(buf, event).buf == Drain(buf + TextOf(event)).rest
    ensures FlatMap(PayloadOf, Step(buf, event).items) == Drain(buf + TextOf(event)).payloads
    ensures FlatMap(FailureOf, Step(buf, event).items) == FailureIn(event)
    ensures Oversized !in Step(buf, event).items
  {
    if event.Broken? {
      BrokenStep(buf, event);
    } else {
      QuietStep(buf + event.data);
    }
  }

  lemma WholeDrain(buf: string, events: seq<Event>)
    requires events != []
    ensures var first := Drain(buf + TextOf(events[0]));
            var second := Drain(first.rest + Carried(events[1..]));
            Drain(buf + Carried(events)) == Drained(first.payloads + second.payloads, second.rest)
  {
    var text, more := TextOf(events[0]), Carried(events[1..]);
    assert Carried(events) == text + more;
    assert buf + (text + more) == (buf + text) + more;
    DrainSplit(buf + text, more);
  }

  /** However the text is cut, and wherever transport errors fall between the pieces, the
      payloads and the leftover are those of draining the whole text once. */
  lemma {:induction false} CutsDoNotMatter(buf: string, events: seq<Event>)
    requires FindSseBoundary(buf).None? && WithinCap(buf, events)
    ensures FlatMap(PayloadOf, Scan(buf, events).items) == Drain(buf + Carried(events)).payloads
    ensures Scan(buf, events).buf == Drain(buf + Carried(events)).rest
    ensures FlatMap(FailureOf, Scan(buf, events).items) == FlatMap(FailureIn, events)
    ensures Oversized !in Scan(buf, events).items
    decreases |events|
  {
    if events == [] {
      assert buf + Carried(events) == buf;
      DrainIdle(buf);
    } else {
      StepParts(buf, events[0]);
      var buf' := Step(buf, events[0]).buf;
      CutsDoNotMatter(buf', events[1..]);
      ScanParts(buf, events);
      WholeDrain(buf, events);
    }
  }

  /** An event that leaves more than the cap still delivers the payloads it completed, then one
      overflow, and the next event starts from nothing. */
  lemma OverflowStep(buf: string, data: string)
    requires ByteLen(Drain(buf + data).rest) > 1_048_576
    ensures Step(buf, Text(data)).buf == ""
    ensures var items := Step(buf, Text(data)).items;
            && items != [] && items[|items| - 1] == Oversized && Oversized !in items[..|items| - 1]
            && FlatMap(PayloadOf, items) == Drain(buf + data).payloads
  {
    var wrapped := Wrapped(Drain(buf + data).payloads);
    WrappedParts(Drain(buf + data).payloads);
    assert (wrapped + [Oversized])[..|wrapped|] == wrapped;
    FlatMapAppend(PayloadOf, wrapped, [Oversized]);
    FlatMapOne(PayloadOf, Oversized);
  }

  /** Past the cap the reader is told so. */
  lemma {:induction false} TripIsReported(buf: string, events: seq<Event>)
    requires FindSseBoundary(buf).None? && !Trips(buf) && !WithinCap(buf, events)
    ensures Oversized in Scan(buf, events).items
    decreases |events|
  {
    var text, rest := TextOf(events[0]), events[1..];
    var buf' := Drain(buf + text).rest;
    ScanParts(buf, events);
    if Trips(buf') {
      if events[0].Broken? {
        assert buf + text == buf;
        DrainIdle(buf);
        assert false;
      }
      var items := DrainedItems(buf + text);
      assert items[|items| - 1] == Oversized;
      assert Step(buf, events[0]).items == items;
    } else {
      StepParts(buf, events[0]);
      TripIsReported(buf', rest);
    }
  }

  /** The cap condition, read off the prefixes of the stream. */
  lemma {:induction false} WithinCapByPrefix(buf: string, events: seq<Event>)
    requires FindSseBoundary(buf).None?
    ensures WithinCap(buf, events) <==> forall k :: 0 < k <= |events| ==> !Trips(Drain(buf + Carried(events[..k])).rest)
    decreases |events|
  {
    if events != [] {
      var text, rest := TextOf(events[0]), events[1..];
      var buf' := Drain(buf + text).rest;
      forall k | 0 <= k <= |rest|
        ensures Drain(buf + Carried(events[..k + 1])).rest == Drain(buf' + Carried(rest[..k])).rest
      {
        PrefixRest(buf, events, k);
      }
      assert buf' + Carried(rest[..0]) == buf';
      DrainIdle(buf');
      WithinCapByPrefix(buf', rest);
      if forall k :: 0 < k <= |events| ==> !Trips(Drain(buf + Carried(events[..k])).rest) {
        assert !Trips(Drain(buf + Carried(events[..0 + 1])).rest);
        forall k | 0 < k <= |rest|
          ensures !Trips(Drain(buf' + Carried(rest[..k])).rest)
        {
          assert !Trips(Drain(buf + Carried(events[..k + 1])).rest);
        }
      }
      if WithinCap(buf, events) {
        forall k | 0 < k <= |events|
          ensures !Trips(Drain(buf + Carried(events[..k])).rest)
        {
          assert Drain(buf + Carried(events[..(k - 1) + 1])).rest == Drain(buf' + Carried(rest[..k - 1])).rest;
        }
      }
    }
  }

  lemma PrefixRest(buf: string, events: seq<Event>, k: nat)
    requires k < |events|
    ensures var buf' := Drain(buf + TextOf(events[0])).rest;
            Drain(buf + Carried(events[..k + 1])).rest == Drain(buf' + Carried(events[1..][..k])).rest
  {
    assert events[..k + 1][0] == events[0] && events[..k + 1][1..] == events[1..][..k];
    WholeDrain(buf, events[..k + 1]);
  }

  /** The stream is decoded in full, with nothing dropped and no overflow reported,
      exactly when no prefix of it leaves more than the cap undecoded. */
  lemma DecodedInFullIff(events: seq<Event>)
    ensures (&& Oversized !in Scan("", events).items
             && FlatMap(PayloadOf, Scan("", events).items) == Drain(Carried(events)).payloads
             && Scan("", events).buf == Drain(Carried(events)).rest)
            <==> forall k :: 0 < k <= |events| ==> ByteLen(Drain(Carried(events[..k])).rest) <= 1_048_576
  {
    assert forall s :: Trips(s) <==> ByteLen(s) > 1_048_576;
    assert FindSseBoundary("").None?;
    assert "" + Carried(events) == Carried(events);
    assert forall k :: 0 < k <= |events| ==> "" + Carried(events[..k]) == Carried(events[..k]);
    WithinCapByPrefix("", events);
    if WithinCap("", events) {
      CutsDoNotMatter("", events);
    } else {
      TripIsReported("", events);
    }
  }

  /** The scan buffer never holds more than the cap between events. */
  lemma {:induction false} BufferStaysBounded(buf: string, events: seq<Event>)
    requires ByteLen(buf) <= 1_048_576
    ensures ByteLen(Scan(buf, events).buf) <= 1_048_576
    decreases |events|
  {
    if events != [] {
      BufferStaysBounded(Step(buf, events[0]).buf, events[1..]);
    }
  }
}
