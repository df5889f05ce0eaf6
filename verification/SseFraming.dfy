/** The incremental server-sent-event decoder of src/providers/mod.rs.

    Positions count scalar values rather than bytes; both delimiters are ASCII, so the
    cuts fall in the same places. JSON decoding of a payload is outside the model: a
    payload stands for the chunk parsed from it. */
module SseFraming {
  import opened Prelude
  import opened Text

  const MAX_SSE_SCAN_BUFFER_BYTES: nat := 1024 * 1024

  const LF: string := "\n\n"
  const CRLF: string := "\r\n\r\n"

  predicate Occurs(s: string, pattern: string, i: nat) {
    i + |pattern| <= |s| && s[i..i + |pattern|] == pattern
  }

  /** `str::find` from position `i` on. */
  function FindFrom(s: string, pattern: string, i: nat): (found: Option<nat>)
    requires i <= |s|
    ensures found.Some? ==> i <= found.value && found.value + |pattern| <= |s|
    decreases |s| - i
  {
    if Occurs(s, pattern, i) then Some(i)
    else if i == |s| then None
    else FindFrom(s, pattern, i + 1)
  }

  lemma {:induction false} FindFromSpec(s: string, pattern: string, i: nat)
    requires i <= |s|
    ensures var found := FindFrom(s, pattern, i);
            && (found.Some? ==> Occurs(s, pattern, found.value))
            && (forall j :: i <= j && Occurs(s, pattern, j) ==> found.Some? && found.value <= j)
    decreases |s| - i
  {
    if !Occurs(s, pattern, i) && i < |s| {
      FindFromSpec(s, pattern, i + 1);
    }
  }

  datatype Boundary = Boundary(start: nat, length: nat)

  predicate Delimits(s: string, b: Boundary) {
    || (b.length == 2 && Occurs(s, LF, b.start))
    || (b.length == 4 && Occurs(s, CRLF, b.start))
  }

  function FindSseBoundary(s: string): (found: Option<Boundary>)
    ensures found.Some? ==> 2 <= found.value.length && found.value.start + found.value.length <= |s|
  {
    match (FindFrom(s, LF, 0), FindFrom(s, CRLF, 0))
    case (Some(a), None) => Some(Boundary(a, 2))
    case (None, Some(b)) => Some(Boundary(b, 4))
    case (Some(a), Some(b)) => if a <= b then Some(Boundary(a, 2)) else Some(Boundary(b, 4))
    case (None, None) => None
  }

  /** It is the earliest delimiter of either framing. */
  lemma BoundaryIsEarliest(s: string, b: Boundary)
    ensures FindSseBoundary(s).Some? ==> Delimits(s, FindSseBoundary(s).value)
    ensures Delimits(s, b) ==> FindSseBoundary(s).Some? && FindSseBoundary(s).value.start <= b.start
  {
    FindFromSpec(s, LF, 0);
    FindFromSpec(s, CRLF, 0);
  }

  // ---- One raw event ----

  function StripCr(line: string): string {
    if line != "" && line[|line| - 1] == '\r' then line[..|line| - 1] else line
  }

  /** `str::lines`: a carriage return is dropped only in front of a line feed. */
  function Lines(raw: string): seq<string>
    decreases |raw|
  {
    if raw == "" then []
    else match FindFrom(raw, "\n", 0)
      case None => [raw]
      case Some(i) => [StripCr(raw[..i])] + Lines(raw[i + 1..])
  }

  /** Lines written out, each with its ending. */
  function Joined(lines: seq<string>, ending: string): string {
    if lines == [] then "" else lines[0] + ending + Joined(lines[1..], ending)
  }

  lemma FirstFeed(line: string, rest: string)
    requires '\n' !in line
    ensures FindFrom(line + "\n" + rest, "\n", 0) == Some(|line|)
  {
    var s := line + "\n" + rest;
    FindFromSpec(s, "\n", 0);
    assert s[|line|..|line| + 1] == "\n" && Occurs(s, "\n", |line|);
    forall j | 0 <= j < |line|
      ensures !Occurs(s, "\n", j)
    {
      assert s[j..j + 1] == [line[j]];
    }
  }

  predicate LineEnding(ending: string) {
    ending == "\n" || ending == "\r\n"
  }

  lemma FirstLine(head: string, rest: string)
    requires '\n' !in head
    ensures Lines(head + "\n" + rest) == [StripCr(head)] + Lines(rest)
  {
    var s := head + "\n" + rest;
    FirstFeed(head, rest);
    assert s[..|head|] == head && s[|head| + 1..] == rest;
  }

  lemma FirstJoined(line: string, ending: string, rest: string)
    requires '\n' !in line && StripCr(line) == line && LineEnding(ending)
    ensures Lines(line + ending + rest) == [line] + Lines(rest)
  {
    if ending == "\n" {
      FirstLine(line, rest);
    } else {
      var head := line + "\r";
      assert head[|head| - 1] == '\r' && head[..|head| - 1] == line;
      FirstLine(head, rest);
      assert "\r\n" == "\r" + "\n";
      assert line + ending + rest == head + "\n" + rest;
    }
  }

  /** Splitting undoes joining, with either line ending. */
  lemma {:induction false} LinesOfJoined(lines: seq<string>, ending: string)
    requires LineEnding(ending)
    requires forall i :: 0 <= i < |lines| ==> '\n' !in lines[i] && StripCr(lines[i]) == lines[i]
    ensures Lines(Joined(lines, ending)) == lines
    decreases |lines|
  {
    if lines != [] {
      FirstJoined(lines[0], ending, Joined(lines[1..], ending));
      LinesOfJoined(lines[1..], ending);
      assert lines == [lines[0]] + lines[1..];
    }
  }

  const FIELD: string := "data:"
  const DONE: string := "[DONE]"

  function Unpadded(data: string): string {
    if " " <= data then data[1..] else data
  }

  /** What one line carries: nothing, or one payload. */
  function LinePayload(line: string): seq<string> {
    if FIELD <= line then
      var data := Unpadded(line[|FIELD|..]);
      if !Blank(data) && data != DONE then [data] else []
    else
      []
  }

  function Payloads(raw: string): seq<string> {
    FlatMap(LinePayload, Lines(raw))
  }

  method ParseEventPayloads(raw: string) returns (payloads: seq<string>)
    ensures payloads == Payloads(raw)
  {
    payloads := [];
    var lines := Lines(raw);
    for i := 0 to |lines|
      invariant payloads == FlatMap(LinePayload, lines[..i])
    {
      var line := lines[i];
      assert lines[..i + 1] == lines[..i] + [line];
      FlatMapAppend(LinePayload, lines[..i], [line]);
      FlatMapOne(LinePayload, line);
      if FIELD <= line {
        var rest := line[|FIELD|..];
        var data := if " " <= rest then rest[1..] else rest;
        if Trim(data) != "" && data != DONE {
          payloads := payloads + [data];
        }
      }
    }
    assert lines[..|lines|] == lines;
  }

  function EventPayloads(raw: string): seq<string> {
    Payloads(Trim(raw))
  }

  // ---- The buffer ----

  datatype Drained = Drained(payloads: seq<string>, rest: string)

  /** Every complete event of `s`, with no bound on what is left. */
  function Drain(s: string): (d: Drained)
    ensures FindSseBoundary(d.rest).None?
    decreases |s|
  {
    match FindSseBoundary(s)
    case None => Drained([], s)
    case Some(b) =>
      var d := Drain(s[b.start + b.length..]);
      Drained(EventPayloads(s[..b.start]) + d.payloads, d.rest)
  }

  datatype Item = Payload(data: string) | Oversized | TransportError(reason: string)

  predicate Trips(s: string) {
    ByteLen(s) > MAX_SSE_SCAN_BUFFER_BYTES
  }

  function Wrapped(payloads: seq<string>): seq<Item> {
    seq(|payloads|, i requires 0 <= i < |payloads| => Payload(payloads[i]))
  }

  /** What one drain of the scan buffer emits, and what it leaves behind. */
  function DrainedItems(s: string): seq<Item> {
    Wrapped(Drain(s).payloads) + (if Trips(Drain(s).rest) then [Oversized] else [])
  }

  function DrainedBuffer(s: string): string {
    if Trips(Drain(s).rest) then "" else Drain(s).rest
  }

  lemma DrainStep(before: seq<string>, s: string, b: Boundary)
    requires FindSseBoundary(s) == Some(b)
    ensures var next, datas := Drain(s[b.start + b.length..]), EventPayloads(s[..b.start]);
            before + Drain(s).payloads == (before + datas) + next.payloads && Drain(s).rest == next.rest
  {
    var next, datas := Drain(s[b.start + b.length..]), EventPayloads(s[..b.start]);
    assert Drain(s) == Drained(datas + next.payloads, next.rest);
    Associative(before, datas, next.payloads);
  }

  method PushChunks(chunks: seq<Item>, ghost before: seq<string>, datas: seq<string>) returns (r: seq<Item>)
    requires chunks == Wrapped(before)
    ensures r == Wrapped(before + datas)
  {
    r := chunks;
    for i := 0 to |datas|
      invariant r == Wrapped(before + datas[..i])
    {
      r := r + [Payload(datas[i])];
    }
    assert datas[..|datas|] == datas;
  }

  datatype Event = Text(data: string) | Broken(reason: string)

  datatype Scanned = Scanned(items: seq<Item>, buf: string)

  /** One call of the `scan` closure: what it emits and the buffer it leaves. */
  function Step(buf: string, event: Event): Scanned {
    match event
    case Text(data) => Scanned(DrainedItems(buf + data), DrainedBuffer(buf + data))
    case Broken(reason) => Scanned([TransportError(reason)], buf)
  }

  /** The scan state of one stream. */
  class Scanner {
    var buf: string

    constructor ()
      ensures buf == ""
    {
      buf := "";
    }

    method DrainSseEvents() returns (chunks: seq<Item>)
      modifies this
      ensures chunks == DrainedItems(old(buf))
      ensures buf == DrainedBuffer(old(buf))
    {
      chunks := [];
      ghost var payloads: seq<string> := [];
      while true
        invariant chunks == Wrapped(payloads)
        invariant Drain(old(buf)) == Drained(payloads + Drain(buf).payloads, Drain(buf).rest)
        decreases |buf|
      {
        match FindSseBoundary(buf)
        case Some(b) =>
          var raw := Trim(buf[..b.start]);
          var datas := ParseEventPayloads(raw);
          DrainStep(payloads, buf, b);
          buf := buf[b.start + b.length..];
          chunks := PushChunks(chunks, payloads, datas);
          payloads := payloads + datas;
        case None =>
          assert payloads + [] == payloads;
          if ByteLen(buf) > MAX_SSE_SCAN_BUFFER_BYTES {
            chunks := chunks + [Oversized];
            buf := "";
          } else {
            assert chunks + [] == chunks;
          }
          break;
      }
    }

    /** The closure of the `scan` combinator. */
    method OnEvent(event: Event) returns (chunks: seq<Item>)
      modifies this
      ensures Scanned(chunks, buf) == Step(old(buf), event)
    {
      match event
      case Text(data) =>
        buf := buf + data;
        chunks := DrainSseEvents();
      case Broken(reason) =>
        chunks := [TransportError(reason)];
    }
  }
}
